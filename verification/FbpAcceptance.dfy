/**
 Which texts are accepted: exactly those whose tokens spell statements that say nothing twice
 and leave no node without a component.
 */
module FbpAcceptance {
  import opened Wrappers
  import opened FbpTokens
  import opened FbpGraph
  import opened FbpReader
  import opened FbpSafety
  import opened FbpGrammar
  import opened FbpLegal
  import FbpWriting

  // ---------------------------------------------------------------------------
  // Saying one thing after another
  // ---------------------------------------------------------------------------

  /** Each of these fits what was said before it. */
  predicate FitAll(acts: seq<Act>, more: seq<Act>) {
    forall k :: 0 <= k < |more| ==> Fits(acts + more[..k], more[k])
  }

  lemma FitNone(acts: seq<Act>)
    ensures FitAll(acts, []) && acts + [] == acts
  {
  }

  lemma FitOne(acts: seq<Act>, a: Act)
    ensures FitAll(acts, [a]) <==> Fits(acts, a)
  {
    assert acts + [a][..0] == acts;
  }

  lemma FitBoth(acts: seq<Act>, a: seq<Act>, b: seq<Act>)
    ensures FitAll(acts, a + b) <==> FitAll(acts, a) && FitAll(acts + a, b)
    ensures acts + (a + b) == acts + a + b
  {
    hide Fits;
    assert forall k :: 0 <= k <= |a| ==> (a + b)[..k] == a[..k];
    forall k | 0 <= k < |b|
      ensures acts + (a + b)[..|a| + k] == acts + a + b[..k] && (a + b)[|a| + k] == b[k]
    {
      assert (a + b)[..|a| + k] == a + b[..k];
    }
    if FitAll(acts, a + b) {
      forall k | 0 <= k < |a|
        ensures Fits(acts + a[..k], a[k])
      {
        assert Fits(acts + (a + b)[..k], (a + b)[k]);
      }
      forall k | 0 <= k < |b|
        ensures Fits(acts + a + b[..k], b[k])
      {
        assert Fits(acts + (a + b)[..|a| + k], (a + b)[|a| + k]);
      }
    }
    if FitAll(acts, a) && FitAll(acts + a, b) {
      forall k | 0 <= k < |a + b|
        ensures Fits(acts + (a + b)[..k], (a + b)[k])
      {
        if k < |a| {
          assert Fits(acts + a[..k], a[k]);
        } else {
          assert Fits(acts + a + b[..k - |a|], b[k - |a|]);
          assert (a + b)[..|a| + (k - |a|)] == (a + b)[..k];
        }
      }
    }
  }

  /** What was read succeeded exactly if this fits, and then has been said. */
  ghost predicate Says(r: bool, h: GraphData, acts: seq<Act>, more: seq<Act>) {
    (r <==> FitAll(acts, more)) && (r ==> Reflects(h, acts + more))
  }

  // ---------------------------------------------------------------------------
  // Nodes
  // ---------------------------------------------------------------------------

  lemma PlaceSays(input: string, g: GraphData, acts: seq<Act>, at: nat, name: string, component: string, next: nat)
    requires GraphOk(g) && NamesOk(input, g.nodes, at) && at <= |input| && Reflects(g, acts)
    requires var pos := PositionAt(input, at); var (ms, p) := Place(g.nodes, name, component, pos, next);
      && GraphOk(g.(nodes := ms)) && Extends(g.nodes, ms)
      && (p.Got? ==> Placed(g.nodes, ms, p.value, StoredName(name, pos), component, pos))
    ensures var pos := PositionAt(input, at); var (ms, p) := Place(g.nodes, name, component, pos, next);
      var a := Use(StoredName(name, pos), component, name == "_");
      && Says(p.Got?, g.(nodes := ms), acts, [a])
      && (p.Got? ==> ms[p.value].name == StoredName(name, pos))
  {
    hide GraphOk, NamesOk, PositionAt, AnonName, Extends, NodesReflect, ConnsReflect, InsReflect, OutsReflect, OptionsReflect, NodeAdded, Fits, FitAll;
    var pos := PositionAt(input, at);
    var (ms, p) := Place(g.nodes, name, component, pos, next);
    var a := Use(StoredName(name, pos), component, name == "_");
    if name == "_" {
      AnonNameIsNew(input, g.nodes, at);
    }
    OkIsPlaceable(g);
    OkIsPlaceable(g.(nodes := ms));
    UseFits(g.nodes, acts, name, component, pos);
    FitOne(acts, a);
    if p.Got? {
      UseReflects(g.nodes, ms, p.value, acts, StoredName(name, pos), component, pos, name == "_");
      OneMore(acts, a);
      OthersKept(g, ms, acts, acts + [a]);
    }
  }

  /** The name at token `i`. */
  lemma PlaceAtSays(input: string, ts: seq<Token>, i: nat, g: GraphData, acts: seq<Act>, component: string, next: nat)
    requires Lexical(input, ts) && i < |ts| && KindAt(ts, i) == Identifier && !AfterColon(ts, i)
    requires Fit(input, g, EndBefore(ts, i)) && Reflects(g, acts)
    ensures var name := TextAt(input, ts, i); var (ms, p) := Place(g.nodes, name, component, PosAt(ts, i), next);
      && Says(p.Got?, g.(nodes := ms), acts, [Use(StoredName(name, PosAt(ts, i)), component, name == "_")])
      && Fit(input, g.(nodes := ms), EndBefore(ts, i + 1))
      && (p.Got? ==> p.value < |ms| && ms[p.value].name == StoredName(name, PosAt(ts, i)))
  {
    hide Lexical, GraphOk, NamesOk, PositionAt, Place, Extends, Placed, AnonName, Reflects, Says;
    TokenSpan(input, ts, i);
    PlaceAtFits(input, ts, i, g, component, next);
    NamesOkGrow(input, g.nodes, EndBefore(ts, i), ts[i].start);
    PlaceSays(input, g, acts, ts[i].start, TextAt(input, ts, i), component, next);
  }

  lemma KeySays(g: GraphData, n: nat, m: Meta, acts: seq<Act>)
    requires GraphOk(g) && Reflects(g, acts) && n < |g.nodes|
    ensures var (ms, o) := MetaAdded(g.nodes, n, m);
      Says(o.Index?, g.(nodes := ms), acts, [Key(g.nodes[n].name, m.key)])
  {
    hide GraphOk, NodesReflect, ConnsReflect, InsReflect, OutsReflect, OptionsReflect, Fits, FitAll, HasKey, Extends, NodesOk;
    var a := Key(g.nodes[n].name, m.key);
    OkIsPlaceable(g);
    KeyFits(g.nodes, acts, n, m);
    FitOne(acts, a);
    if MetaAdded(g.nodes, n, m).1.Index? {
      KeyReflects(g.nodes, acts, n, m);
      OneMore(acts, a);
      MetaAddedKeeps(g, n, m);
      OthersKept(g, WithMetas(g.nodes, n, [m]), acts, acts + [a]);
    }
  }

  lemma PairReads(input: string, ts: seq<Token>, i: nat, first: bool, p: PairText)
    requires var k := if first then i else i + 1;
      (!first ==> Is(ts, i, Comma)) && PairSpelled(input, ts, k, p) && (p.value.None? ==> !Is(ts, k + 1, Equal))
    ensures var r := ReadPair(input, ts, i, first);
      r.Got? && r.value.key == p.key && r.next == (if first then i else i + 1) + PairSize(p)
  {
    hide TextAt;
  }

  /** What comes after a pair is no value for it. */
  lemma PairEnds(input: string, ts: seq<Token>, i: nat, ps: seq<PairText>)
    requires PairsSpelled(input, ts, i, ps, false) && Is(ts, i + PairsSize(ps, false), ParenClose)
    ensures !Is(ts, i, Equal)
  {
  }

  lemma {:induction false} PairsSay(input: string, ts: seq<Token>, i: nat, first: bool, ps: seq<PairText>, g: GraphData, n: nat, acts: seq<Act>)
    requires i <= |ts| && GraphOk(g) && Reflects(g, acts) && n < |g.nodes|
    requires PairsSpelled(input, ts, i, ps, first) && Is(ts, i + PairsSize(ps, first), ParenClose)
    ensures var (ms, r) := ReadPairs(input, ts, i, first, g.nodes, n);
      && Says(r.Got?, g.(nodes := ms), acts, Keys(g.nodes[n].name, ps))
      && (r.Got? ==> r.next == i + PairsSize(ps, first) && n < |ms| && ms[n].name == g.nodes[n].name)
    decreases |ts| - i
  {
    hide ReadPair, GraphOk, Reflects, FitAll, PairSpelled;
    if ps == [] {
      FitNone(acts);
    } else {
      var k := if first then i else i + 1;
      PairEnds(input, ts, k + PairSize(ps[0]), ps[1..]);
      PairIsNoEnd(input, ts, i, first, ps[0]);
      PairReads(input, ts, i, first, ps[0]);
      var r := ReadPair(input, ts, i, first);
      var (ms, o) := MetaAdded(g.nodes, n, r.value);
      var a := Key(g.nodes[n].name, ps[0].key);
      KeySays(g, n, r.value, acts);
      FitBoth(acts, [a], Keys(g.nodes[n].name, ps[1..]));
      if o.Index? {
        MetaAddedKeeps(g, n, r.value);
        PairsSay(input, ts, r.next, false, ps[1..], g.(nodes := ms), n, acts + [a]);
      }
    }
  }

  lemma PairIsNoEnd(input: string, ts: seq<Token>, i: nat, first: bool, p: PairText)
    requires (!first ==> Is(ts, i, Comma)) && (first ==> PairSpelled(input, ts, i, p))
    ensures !Is(ts, i, ParenClose)
  {
  }

  lemma NodeSays(input: string, ts: seq<Token>, i: nat, g: GraphData, acts: seq<Act>, n: NodeText)
    requires Lexical(input, ts) && i < |ts| && !AfterColon(ts, i) && Fit(input, g, EndBefore(ts, i)) && Reflects(g, acts)
    requires NodeSpelled(input, ts, i, n) && (n.Bare? ==> !Is(ts, i + 1, ParenOpen))
    ensures var (ms, p) := ReadNode(input, ts, i, g.nodes);
      && Says(p.Got?, g.(nodes := ms), acts, NodeActs(StoredAt(ts, i, n), n))
      && (p.Got? ==> p.next == i + NodeSize(n) && p.value < |ms| && ms[p.value].name == StoredAt(ts, i, n))
  {
    hide Lexical, Fit, Place, Says, AnonName, PairsSpelled, Reflects;
    if n.Full? {
      ComponentSays(input, ts, i, g, acts, n);
    } else {
      PlaceAtSays(input, ts, i, g, acts, "", i + NodeSize(n));
      JustUsed(StoredAt(ts, i, n), n);
    }
  }

  lemma JustUsed(stored: string, n: NodeText)
    requires n.Full? ==> n.pairs.None?
    ensures NodeActs(stored, n) == [Used(stored, n)]
  {
  }

  lemma ComponentSays(input: string, ts: seq<Token>, i: nat, g: GraphData, acts: seq<Act>, n: NodeText)
    requires Lexical(input, ts) && i < |ts| && !AfterColon(ts, i) && Fit(input, g, EndBefore(ts, i)) && Reflects(g, acts)
    requires NodeSpelled(input, ts, i, n) && n.Full?
    ensures var (ms, p) := ReadComponent(input, ts, i, g.nodes);
      && Says(p.Got?, g.(nodes := ms), acts, NodeActs(StoredAt(ts, i, n), n))
      && (p.Got? ==> p.next == i + NodeSize(n) && p.value < |ms| && ms[p.value].name == StoredAt(ts, i, n))
  {
    hide Lexical, Place, Says, AnonName, PairsSpelled, PairsSize, Reflects, GraphOk, NamesOk, ReadPairs, Keys;
    var stored := StoredAt(ts, i, n);
    var (ms, p) := Place(g.nodes, n.name, n.component, PosAt(ts, i), i + 3);
    PlaceAtSays(input, ts, i, g, acts, n.component, i + 3);
    if n.pairs.None? {
      JustUsed(stored, n);
    } else {
      var ps := n.pairs.value;
      SaysMore(p.Got?, g.(nodes := ms), acts, [Used(stored, n)], Keys(stored, ps));
      if p.Got? {
        SaidSo(p.Got?, g.(nodes := ms), acts, [Used(stored, n)]);
        PairsSay(input, ts, i + 4, true, ps, g.(nodes := ms), p.value, acts + [Used(stored, n)]);
        SaysBoth(p.Got?, ReadPairs(input, ts, i + 4, true, ms, p.value).1.Got?, g.(nodes := ms),
                 g.(nodes := ReadPairs(input, ts, i + 4, true, ms, p.value).0), acts, [Used(stored, n)], Keys(stored, ps));
      }
    }
  }

  lemma SaidSo(r: bool, h: GraphData, acts: seq<Act>, more: seq<Act>)
    requires Says(r, h, acts, more) && r
    ensures Reflects(h, acts + more)
  {
  }

  /** A failure before something else is a failure. */
  lemma SaysMore(r: bool, h: GraphData, acts: seq<Act>, a: seq<Act>, b: seq<Act>)
    requires Says(r, h, acts, a)
    ensures !r ==> Says(false, h, acts, a + b)
  {
    hide FitAll, Reflects;
    FitBoth(acts, a, b);
  }

  /** One thing is said after another. */
  lemma SaysBoth(r: bool, s: bool, h: GraphData, k: GraphData, acts: seq<Act>, a: seq<Act>, b: seq<Act>)
    requires Says(r, h, acts, a) && r && Says(s, k, acts + a, b)
    ensures Says(s, k, acts, a + b)
  {
    hide FitAll, Reflects;
    FitBoth(acts, a, b);
  }

  // ---------------------------------------------------------------------------
  // Connections
  // ---------------------------------------------------------------------------

  lemma PortReads(input: string, ts: seq<Token>, i: nat, p: PortText)
    requires PortSpelled(input, ts, i, p) && !Is(ts, i + PortSize(p), BracketOpen)
    ensures ReadPort(input, ts, i) == Got(PortRef(p.name, IndexOf(p.index)), i + PortSize(p))
  {
    hide TextAt, PortIndex;
  }

  lemma NodeStarts(input: string, ts: seq<Token>, i: nat, n: NodeText)
    requires NodeSpelled(input, ts, i, n)
    ensures Is(ts, i, Identifier) && i < |ts|
  {
    hide PairsSpelled, TextAt;
  }

  lemma SourceReads(input: string, ts: seq<Token>, i: nat, g: GraphData, src: nat, l: LinkText)
    requires LinkSpelled(input, ts, i, l)
    ensures var (ms, p) := ReadSource(input, ts, i, g.nodes, src); var j := i + PortSize(l.source);
      && ms == OutPortAdded(g.nodes, src, l.source.name, PosAt(ts, j - 1))
      && p == Got(Conn(src, l.source.name, IndexOf(l.source.index), 0, "", -1, PosAt(ts, j - 1)), j + 1)
  {
    hide PortSpelled, NodeSpelled, IndexOf, OutPortAdded, PortSize;
    PortReads(input, ts, i, l.source);
  }

  lemma TargetPortReads(input: string, ts: seq<Token>, i: nat, l: LinkText)
    requires LinkSpelled(input, ts, i, l)
    ensures var j := i + PortSize(l.source) + 1;
      && ReadTargetPort(input, ts, j) == Got(PortRef(l.target.name, IndexOf(l.target.index)), i + TargetSize(l))
      && Is(ts, i + TargetSize(l), Identifier) && i + TargetSize(l) < |ts|
  {
    hide NodeSpelled, IndexOf, IndexSpelled, TextAt, ReadPort;
    NodeStarts(input, ts, i + TargetSize(l), l.node);
    PortReads(input, ts, i + PortSize(l.source) + 1, l.target);
  }

  lemma PortsSay(g: GraphData, acts: seq<Act>, n: nat, name: string, pos: Position)
    requires GraphOk(g) && Reflects(g, acts)
    ensures Reflects(g.(nodes := OutPortAdded(g.nodes, n, name, pos)), acts)
    ensures Reflects(g.(nodes := InPortAdded(g.nodes, n, name, pos)), acts)
  {
    hide GraphOk, NodesReflect, ConnsReflect, InsReflect, OutsReflect, OptionsReflect, WithPort, Extends, NodesOk;
    OkIsPlaceable(g);
    PortAddedKeeps(g, n, name, pos);
    PortsReflect(g.nodes, OutPortAdded(g.nodes, n, name, pos), acts);
    PortsReflect(g.nodes, InPortAdded(g.nodes, n, name, pos), acts);
    OthersKept(g, OutPortAdded(g.nodes, n, name, pos), acts, acts);
    OthersKept(g, InPortAdded(g.nodes, n, name, pos), acts, acts);
  }

  lemma PortsKeepNames(ns: seq<Node>, n: nat, name: string, pos: Position)
    ensures forall k :: 0 <= k < |ns| ==> InPortAdded(ns, n, name, pos)[k].name == ns[k].name
    ensures forall k :: 0 <= k < |ns| ==> OutPortAdded(ns, n, name, pos)[k].name == ns[k].name
  {
  }

  lemma ConnSays(g: GraphData, acts: seq<Act>, c: Conn)
    requires GraphOk(g) && Reflects(g, acts) && c.src < |g.nodes| && c.dst < |g.nodes|
    ensures var (cs, o) := ConnAdded(g.conns, c);
      Says(o.Index?, g.(conns := cs), acts, [ConnAct(g.nodes, c)])
  {
    hide GraphOk, NodesReflect, ConnsReflect, InsReflect, OutsReflect, OptionsReflect, Fits, FitAll, NodesOk, HasConn;
    OkIsPlaceable(g);
    LinkFits(g, acts, c);
    FitOne(acts, ConnAct(g.nodes, c));
    LinkReflects(g, acts, c);
  }

  /** The node a link goes to, with its port. */
  lemma TargetSays(input: string, ts: seq<Token>, i: nat, g: GraphData, acts: seq<Act>, l: LinkText, c: Conn)
    requires Lexical(input, ts) && LinkSpelled(input, ts, i, l) && (l.node.Bare? ==> !Is(ts, i + LinkSize(l), ParenOpen))
    requires i <= |ts| && Fit(input, g, EndBefore(ts, i)) && Reflects(g, acts)
    ensures var target := StoredAt(ts, i + TargetSize(l), l.node);
      var (ms, p) := ReadTarget(input, ts, i + PortSize(l.source) + 1, g.nodes, c);
      && Says(p.Got?, g.(nodes := ms), acts, NodeActs(target, l.node))
      && (p.Got? ==>
            && p.next == i + LinkSize(l) && p.value.dst < |ms| && ms[p.value.dst].name == target
            && p.value == c.(dst := p.value.dst, dstPort := l.target.name, dstIdx := IndexOf(l.target.index)))
  {
    hide Lexical, Fit, Says, LinkSpelled, NodeActs, StoredAt, ReadNode, ReadTargetPort, Reflects, InPortAdded, NodeSpelled, IndexOf;
    hide Extends, TextAt, PortSize, NodeSize, TargetSize, Sound;
    var j := i + TargetSize(l);
    TargetPortReads(input, ts, i, l);
    PortEnds(input, ts, i + PortSize(l.source) + 1);
    TargetSpelled(input, ts, i, l);
    EndGrows(input, ts, i, j);
    FitGrow(input, g, EndBefore(ts, i), EndBefore(ts, j));
    BareSize(l.node);
    NodeSays(input, ts, j, g, acts, l.node);
    NodeFits(input, ts, j, g);
    var (ms, q) := ReadNode(input, ts, j, g.nodes);
    if q.Got? {
      var h := g.(nodes := ms);
      var more := NodeActs(StoredAt(ts, j, l.node), l.node);
      SaidSo(true, h, acts, more);
      FitIsOk(input, h, Reach(input, ts, q));
      PortsSay(h, acts + more, q.value, l.target.name, PosAt(ts, j - 1));
      PortsKeepNames(ms, q.value, l.target.name, PosAt(ts, j - 1));
      SaysStill(h, g.(nodes := InPortAdded(ms, q.value, l.target.name, PosAt(ts, j - 1))), acts, more);
    } else {
      NotSaid(g.(nodes := ms), acts, NodeActs(StoredAt(ts, j, l.node), l.node));
    }
  }

  lemma TargetSpelled(input: string, ts: seq<Token>, i: nat, l: LinkText)
    requires LinkSpelled(input, ts, i, l)
    ensures NodeSpelled(input, ts, i + TargetSize(l), l.node)
  {
    hide NodeSpelled, PortSpelled;
  }

  lemma FitIsOk(input: string, g: GraphData, b: nat)
    requires Fit(input, g, b)
    ensures GraphOk(g)
  {
    hide GraphOk, NamesOk;
  }

  lemma SaysStill(h: GraphData, k: GraphData, acts: seq<Act>, more: seq<Act>)
    requires Says(true, h, acts, more) && Reflects(k, acts + more)
    ensures Says(true, k, acts, more)
  {
    hide FitAll, Reflects;
  }

  lemma NotSaid(h: GraphData, acts: seq<Act>, more: seq<Act>)
    requires Says(false, h, acts, more)
    ensures forall k :: Says(false, k, acts, more)
  {
    hide FitAll, Reflects;
  }

  lemma LinkSays(input: string, ts: seq<Token>, i: nat, g: GraphData, src: nat, acts: seq<Act>, l: LinkText)
    requires Lexical(input, ts) && LinkSpelled(input, ts, i, l) && (l.node.Bare? ==> !Is(ts, i + LinkSize(l), ParenOpen))
    requires i <= |ts| && Fit(input, g, EndBefore(ts, i)) && Reflects(g, acts) && src < |g.nodes|
    ensures var (h, p) := ReadConn(input, ts, i, g, src); var target := StoredAt(ts, i + TargetSize(l), l.node);
      && Says(p.Got?, h, acts, LinkActs(ts, i, g.nodes[src].name, l))
      && (p.Got? ==> p.next == i + LinkSize(l) && p.value < |h.nodes| && h.nodes[p.value].name == target)
  {
    hide Lexical, Says, LinkSpelled, NodeActs, StoredAt, ReadSource, ReadTarget, Reflects, OutPortAdded, IndexOf, GraphOk, NamesOk, Extends, ConnAdded, PortNames;
    var source := g.nodes[src].name;
    var (ms, p) := ReadSource(input, ts, i, g.nodes, src);
    var j := i + PortSize(l.source);
    SourceReads(input, ts, i, g, src, l);
    SourceFits(input, ts, i, g, src);
    PortsSay(g, acts, src, l.source.name, PosAt(ts, j - 1));
    PortsKeepNames(g.nodes, src, l.source.name, PosAt(ts, j - 1));
    PortFits(input, g, EndBefore(ts, i), src, l.source.name, PosAt(ts, j - 1));
    var h := g.(nodes := ms);
    var target := StoredAt(ts, i + TargetSize(l), l.node);
    var more, a := NodeActs(target, l.node), LinkAct(source, l, target);
    TargetSays(input, ts, i, h, acts, l, p.value);
    TargetFits(input, ts, j + 1, h, p.value);
    var (os, q) := ReadTarget(input, ts, j + 1, ms, p.value);
    SaysMore(q.Got?, h.(nodes := os), acts, more, [a]);
    if q.Got? {
      assert os[src].name == source by { ExtendsName(ms, os, src); }
      SaidSo(true, h.(nodes := os), acts, more);
      assert ConnAct(os, q.value) == a by { TargetIsNamed(os, q.value, source, l, target); }
      ConnSays(h.(nodes := os), acts + more, q.value);
      var (cs, o) := ConnAdded(h.conns, q.value);
      SaysBoth(true, o.Index?, h.(nodes := os), h.(nodes := os, conns := cs), acts, more, [a]);
    }
  }

  lemma TargetIsNamed(ns: seq<Node>, c: Conn, source: string, l: LinkText, target: string)
    requires c.src < |ns| && c.dst < |ns| && ns[c.src].name == source && ns[c.dst].name == target
    requires c.srcPort == l.source.name && c.srcIdx == IndexOf(l.source.index)
    requires c.dstPort == l.target.name && c.dstIdx == IndexOf(l.target.index)
    ensures ConnAct(ns, c) == LinkAct(source, l, target)
  {
    hide IndexOf;
  }

  lemma ExtendsName(ns: seq<Node>, ms: seq<Node>, n: nat)
    requires Extends(ns, ms) && n < |ns|
    ensures n < |ms| && ms[n].name == ns[n].name
  {
  }

  lemma LinksStart(input: string, ts: seq<Token>, i: nat, ls: seq<LinkText>)
    requires LinksSpelled(input, ts, i, ls) && ls != []
    ensures Is(ts, i, Identifier) && LinkSpelled(input, ts, i, ls[0]) && LinksSpelled(input, ts, i + LinkSize(ls[0]), ls[1..])
  {
    hide NodeSpelled, IndexSpelled, TextAt;
  }

  lemma {:induction false} ChainSays(input: string, ts: seq<Token>, i: nat, g: GraphData, src: nat, acts: seq<Act>, ls: seq<LinkText>)
    requires Lexical(input, ts) && i <= |ts| && Fit(input, g, EndBefore(ts, i)) && Reflects(g, acts) && src < |g.nodes|
    requires LinksSpelled(input, ts, i, ls)
    requires !Is(ts, i + LinksSize(ls), Identifier) && !Is(ts, i + LinksSize(ls), ParenOpen)
    ensures var (h, p) := ReadChain(input, ts, i, g, src);
      && Says(p.Got?, h, acts, LinksActs(ts, i, g.nodes[src].name, ls)) && (p.Got? ==> p.next == i + LinksSize(ls))
    decreases |ls|
  {
    hide Lexical, Fit, LinksSpelled, LinkSpelled, LinkActs, StoredAt, ReadConn, Reflects, FitAll, LinkSize, Extends, TargetSize;
    if ls == [] {
      FitNone(acts);
    } else {
      var l, rest, source := ls[0], ls[1..], g.nodes[src].name;
      var j := i + LinkSize(l);
      LinksStart(input, ts, i, ls);
      if rest != [] {
        LinksStart(input, ts, j, rest);
      }
      LinkSays(input, ts, i, g, src, acts, l);
      ConnFits(input, ts, i, g, src);
      var (h, p) := ReadConn(input, ts, i, g, src);
      var target := StoredAt(ts, i + TargetSize(l), l.node);
      var a, b := LinkActs(ts, i, source, l), LinksActs(ts, j, target, rest);
      SaysMore(p.Got?, h, acts, a, b);
      if p.Got? {
        ChainSays(input, ts, j, h, p.value, acts + a, rest);
        SaysBoth(true, ReadChain(input, ts, j, h, p.value).1.Got?, h, ReadChain(input, ts, j, h, p.value).0, acts, a, b);
      }
    }
  }

  lemma ChainParts(input: string, ts: seq<Token>, i: nat, s: Stmt)
    requires s.Chain? && StmtSpelled(input, ts, i, s)
    ensures var j, k := i + NodeSize(s.first), i + NodeSize(s.first) + LinksSize(s.links);
      && NodeSpelled(input, ts, i, s.first) && (s.first.Bare? ==> !Is(ts, i + 1, ParenOpen))
      && LinksSpelled(input, ts, j, s.links) && GoesOn(KindAt(ts, j)) && !Is(ts, k, Identifier) && !Is(ts, k, ParenOpen)
  {
    hide NodeSpelled, LinksSpelled, NodeSize, LinksSize, LinkSpelled, TextAt;
    BareSize(s.first);
    NoLinks(s.links);
    if s.links != [] {
      LinksStart(input, ts, i + NodeSize(s.first), s.links);
    }
  }

  lemma ConnectionsSay(input: string, ts: seq<Token>, i: nat, g: GraphData, acts: seq<Act>, s: Stmt)
    requires Lexical(input, ts) && i < |ts| && !AfterColon(ts, i) && Fit(input, g, EndBefore(ts, i)) && Reflects(g, acts)
    requires s.Chain? && StmtSpelled(input, ts, i, s)
    ensures var (h, p) := ReadConnections(input, ts, i, g);
      && Says(p.Got?, h, acts, StmtActs(ts, i, s)) && (p.Got? ==> p.next == i + StmtSize(s))
  {
    hide Lexical, Fit, LinksSpelled, NodeSpelled, NodeActs, StoredAt, ReadNode, ReadChain, Reflects, FitAll, LinksActs, NodeSize, LinksSize, Extends, Says;
    hide StmtSpelled, GoesOn;
    var j := i + NodeSize(s.first);
    ChainParts(input, ts, i, s);
    NodeSays(input, ts, i, g, acts, s.first);
    NodeFits(input, ts, i, g);
    var (ms, p) := ReadNode(input, ts, i, g.nodes);
    var h, stored := g.(nodes := ms), StoredAt(ts, i, s.first);
    var a, b := NodeActs(stored, s.first), LinksActs(ts, j, stored, s.links);
    SaysMore(p.Got?, h, acts, a, b);
    if p.Got? {
      SaidSo(true, h, acts, a);
      ChainSays(input, ts, j, h, p.value, acts + a, s.links);
      SaysBoth(true, ReadChain(input, ts, j, h, p.value).1.Got?, h, ReadChain(input, ts, j, h, p.value).0, acts, a, b);
    }
  }

  lemma NoLinks(ls: seq<LinkText>)
    ensures ls == [] ==> LinksSize(ls) == 0
  {
  }

  lemma BareSize(n: NodeText)
    ensures n.Bare? ==> NodeSize(n) == 1
  {
  }

  // ---------------------------------------------------------------------------
  // The other statements
  // ---------------------------------------------------------------------------

  /** A node that is named by token `j` but placed for token `k`. */
  lemma PlaceNamedSays(input: string, ts: seq<Token>, i: nat, k: nat, g: GraphData, acts: seq<Act>, name: string, next: nat)
    requires Lexical(input, ts) && i <= k < |ts| && Plain(name) && Fit(input, g, EndBefore(ts, i)) && Reflects(g, acts)
    ensures var (ms, p) := Place(g.nodes, name, "", PosAt(ts, k), next);
      && Says(p.Got?, g.(nodes := ms), acts, [Use(name, "", name == "_")]) && GraphOk(g.(nodes := ms))
      && (p.Got? ==> p.value < |ms| && ms[p.value].name == name)
  {
    hide Lexical, GraphOk, NamesOk, PositionAt, Place, Extends, Placed, AnonName, Reflects, Says, Plain;
    TokenSpan(input, ts, k);
    EndGrows(input, ts, i, k);
    PlaceNamedFits(input, ts, i, g, name, k, next);
    NamesOkGrow(input, g.nodes, EndBefore(ts, i), ts[k].start);
    PlaceSays(input, g, acts, ts[k].start, name, "", next);
    Unplaceable(g.nodes, g, acts, StoredName(name, PosAt(ts, k)), name, PosAt(ts, k), next);
  }

  /** Without a component "_" names no node, whatever it would be stored under. */
  lemma Unplaceable(ns: seq<Node>, g: GraphData, acts: seq<Act>, stored: string, name: string, pos: Position, next: nat)
    requires name != "_" ==> stored == name
    requires stored == StoredName(name, pos)
    ensures var (ms, p) := Place(ns, name, "", pos, next);
      && (name == "_" ==> !p.Got?)
      && (Says(p.Got?, g.(nodes := ms), acts, [Use(stored, "", name == "_")]) ==> Says(p.Got?, g.(nodes := ms), acts, [Use(name, "", name == "_")]))
  {
    hide AnonName, Reflects;
    FitOne(acts, Use(name, "", name == "_"));
  }

  lemma ExportedReads(input: string, ts: seq<Token>, i: nat, keyword: TokenType, node: string, port: PortText, name: string)
    requires ExportSpelled(input, ts, i, keyword, node, port, name)
    ensures var j := i + 6 + PortSize(port);
      ReadExported(input, ts, i + 1) ==
        Got(Named(node, Exported(0, port.name, IndexOf(port.index), name, PosAt(ts, j - 1))), j)
  {
    hide TextAt, PortIndex;
  }

  lemma InportSays(input: string, ts: seq<Token>, i: nat, g: GraphData, acts: seq<Act>, s: Stmt)
    requires Lexical(input, ts) && i < |ts| && Fit(input, g, EndBefore(ts, i)) && Reflects(g, acts)
    requires s.Inport? && StmtSpelled(input, ts, i, s)
    ensures var (h, p) := ReadInport(input, ts, i, g);
      && Says(p.Got?, h, acts, StmtActs(ts, i, s)) && (p.Got? ==> p.next == i + StmtSize(s))
  {
    hide Lexical, Fit, ReadExported, Place, Reflects, Says, InPortAdded, ExportSpelled, IndexOf, PortSize, GraphOk, Plain, ExportAdded;
    ExportedReads(input, ts, i, InportKeyword, s.node, s.port, s.name);
    ExportedNodePlain(input, ts, i + 1);
    var j := i + 6 + PortSize(s.port);
    ReachesToken(input, ts, i, g, j);
    var pos := PosAt(ts, j - 1);
    PlaceNamedSays(input, ts, i, j - 1, g, acts, s.node, j);
    var (ms, p) := Place(g.nodes, s.node, "", pos, j);
    var h := g.(nodes := ms);
    var u, e := Use(s.node, "", s.node == "_"), Exported(0, s.port.name, IndexOf(s.port.index), s.name, pos);
    SaysMore(p.Got?, h, acts, [u], [In(s.node, s.port.name, IndexOf(s.port.index), s.name)]);
    TwoActs(u, In(s.node, s.port.name, IndexOf(s.port.index), s.name));
    if p.Got? {
      SaidSo(true, h, acts, [u]);
      PortsSay(h, acts + [u], p.value, s.port.name, pos);
      PortsKeepNames(ms, p.value, s.port.name, pos);
      var os := InPortAdded(ms, p.value, s.port.name, pos);
      SaysStill(h, g.(nodes := os), acts, [u]);
      PortAddedKeeps(h, p.value, s.port.name, pos);
      InSays(g.(nodes := os), acts + [u], e.(node := p.value), s.node);
      var (es, o) := ExportAdded(g.exportedIn, e.(node := p.value));
      SaysBoth(true, o.Index?, g.(nodes := os), g.(nodes := os, exportedIn := es), acts, [u],
               [In(s.node, s.port.name, IndexOf(s.port.index), s.name)]);
    }
  }

  lemma TwoActs(a: Act, b: Act)
    ensures [a] + [b] == [a, b]
  {
  }

  /** All of it are tokens. */
  lemma ReachesToken(input: string, ts: seq<Token>, i: nat, g: GraphData, j: nat)
    requires ReadExported(input, ts, i + 1).Got? && ReadExported(input, ts, i + 1).next == j
    ensures i < j <= |ts|
  {
    hide PortIndex, TextAt;
  }

  lemma InSays(g: GraphData, acts: seq<Act>, e: Exported, node: string)
    requires GraphOk(g) && Reflects(g, acts) && e.node < |g.nodes| && g.nodes[e.node].name == node
    ensures var (es, o) := ExportAdded(g.exportedIn, e);
      Says(o.Index?, g.(exportedIn := es), acts, [In(node, e.port, e.idx, e.name)])
  {
    hide GraphOk, NodesReflect, ConnsReflect, InsReflect, OutsReflect, OptionsReflect, Fits, FitAll, NodesOk;
    OkIsPlaceable(g);
    InFits(g, acts, e);
    FitOne(acts, InAct(g.nodes, e));
    InReflects(g, acts, e);
  }

  lemma OutportSays(input: string, ts: seq<Token>, i: nat, g: GraphData, acts: seq<Act>, s: Stmt)
    requires Lexical(input, ts) && i < |ts| && Fit(input, g, EndBefore(ts, i)) && Reflects(g, acts)
    requires s.Outport? && StmtSpelled(input, ts, i, s)
    ensures var (h, p) := ReadOutport(input, ts, i, g);
      && Says(p.Got?, h, acts, StmtActs(ts, i, s)) && (p.Got? ==> p.next == i + StmtSize(s))
  {
    hide Lexical, Fit, ReadExported, Place, Reflects, Says, OutPortAdded, ExportSpelled, IndexOf, PortSize, GraphOk, Plain, ExportAdded;
    ExportedReads(input, ts, i, OutportKeyword, s.node, s.port, s.name);
    ExportedNodePlain(input, ts, i + 1);
    var j := i + 6 + PortSize(s.port);
    ReachesToken(input, ts, i, g, j);
    var pos := PosAt(ts, j - 1);
    PlaceNamedSays(input, ts, i, j - 1, g, acts, s.node, j);
    var (ms, p) := Place(g.nodes, s.node, "", pos, j);
    var h := g.(nodes := ms);
    var u, e := Use(s.node, "", s.node == "_"), Exported(0, s.port.name, IndexOf(s.port.index), s.name, pos);
    SaysMore(p.Got?, h, acts, [u], [Out(s.node, s.port.name, IndexOf(s.port.index), s.name)]);
    TwoActs(u, Out(s.node, s.port.name, IndexOf(s.port.index), s.name));
    if p.Got? {
      SaidSo(true, h, acts, [u]);
      PortsSay(h, acts + [u], p.value, s.port.name, pos);
      PortsKeepNames(ms, p.value, s.port.name, pos);
      var os := OutPortAdded(ms, p.value, s.port.name, pos);
      SaysStill(h, g.(nodes := os), acts, [u]);
      PortAddedKeeps(h, p.value, s.port.name, pos);
      OutSays(g.(nodes := os), acts + [u], e.(node := p.value), s.node);
      var (es, o) := ExportAdded(g.exportedOut, e.(node := p.value));
      SaysBoth(true, o.Index?, g.(nodes := os), g.(nodes := os, exportedOut := es), acts, [u],
               [Out(s.node, s.port.name, IndexOf(s.port.index), s.name)]);
    }
  }

  lemma OutSays(g: GraphData, acts: seq<Act>, e: Exported, node: string)
    requires GraphOk(g) && Reflects(g, acts) && e.node < |g.nodes| && g.nodes[e.node].name == node
    ensures var (es, o) := ExportAdded(g.exportedOut, e);
      Says(o.Index?, g.(exportedOut := es), acts, [Out(node, e.port, e.idx, e.name)])
  {
    hide GraphOk, NodesReflect, ConnsReflect, InsReflect, OutsReflect, OptionsReflect, Fits, FitAll, NodesOk;
    OkIsPlaceable(g);
    OutFits(g, acts, e);
    FitOne(acts, OutAct(g.nodes, e));
    OutReflects(g, acts, e);
  }

  lemma DeclareSays(input: string, ts: seq<Token>, i: nat, g: GraphData, acts: seq<Act>, s: Stmt)
    requires i < |ts| && Reflects(g, acts) && s.Declare? && StmtSpelled(input, ts, i, s)
    ensures var (h, p) := ReadDeclare(input, ts, i, g);
      && Says(p.Got?, h, acts, StmtActs(ts, i, s)) && (p.Got? ==> p.next == i + StmtSize(s))
  {
    hide TextAt, NodesReflect, ConnsReflect, InsReflect, OutsReflect, OptionsReflect, DeclarationsReflect, Fits, FitAll, HasDeclaration;
    var d := Declaration(s.name, s.metatype, s.contents, PosAt(ts, i + 2));
    assert ReadDeclaration(input, ts, i + 1) == Got(d, i + 7);
    DeclarationFits(g, acts, d);
    FitOne(acts, Declared(d.name, d.metatype, d.contents));
    DeclarationReflects(g, acts, d);
  }

  lemma ExposeReads(input: string, ts: seq<Token>, i: nat, s: Stmt)
    requires s.Expose? && StmtSpelled(input, ts, i, s)
    ensures ReadNodeOption(input, ts, i + 1) == Got(Named(s.node, NodeOption(s.name, s.option, 0, PosAt(ts, i + 2))), i + 7)
  {
    hide TextAt;
  }

  lemma ExposeSays(input: string, ts: seq<Token>, i: nat, g: GraphData, acts: seq<Act>, s: Stmt)
    requires Lexical(input, ts) && i < |ts| && Fit(input, g, EndBefore(ts, i)) && Reflects(g, acts)
    requires s.Expose? && StmtSpelled(input, ts, i, s)
    ensures var (h, p) := ReadOption(input, ts, i, g);
      && Says(p.Got?, h, acts, StmtActs(ts, i, s)) && (p.Got? ==> p.next == i + StmtSize(s))
  {
    hide Lexical, Fit, ReadNodeOption, Place, Reflects, Says, StmtSpelled, GraphOk, Plain, OptionAdded;
    ExposeReads(input, ts, i, s);
    OptionNodePlain(input, ts, i + 1);
    var pos := PosAt(ts, i + 2);
    assert i + 2 < |ts| by { OptionReaches(input, ts, i); }
    PlaceNamedSays(input, ts, i, i + 2, g, acts, s.node, i + 7);
    var (ms, p) := Place(g.nodes, s.node, "", pos, i + 7);
    var h := g.(nodes := ms);
    var u, e := Use(s.node, "", s.node == "_"), Exposed(s.node, s.option, s.name);
    SaysMore(p.Got?, h, acts, [u], [e]);
    TwoActs(u, e);
    if p.Got? {
      SaidSo(true, h, acts, [u]);
      var o := NodeOption(s.name, s.option, p.value, pos);
      OptionSays(h, acts + [u], o, s.node);
      var (os, r) := OptionAdded(g.options, o);
      SaysBoth(true, r.Index?, h, g.(nodes := ms, options := os), acts, [u], [e]);
    }
  }

  lemma OptionReaches(input: string, ts: seq<Token>, i: nat)
    requires ReadNodeOption(input, ts, i + 1).Got?
    ensures i + 2 < |ts|
  {
    hide TextAt;
  }

  lemma OptionSays(g: GraphData, acts: seq<Act>, o: NodeOption, node: string)
    requires Reflects(g, acts) && o.node < |g.nodes| && g.nodes[o.node].name == node
    ensures var (os, r) := OptionAdded(g.options, o);
      Says(r.Index?, g.(options := os), acts, [Exposed(node, o.option, o.name)])
  {
    hide NodesReflect, ConnsReflect, InsReflect, OutsReflect, OptionsReflect, Fits, FitAll, HasOption;
    OptionIsFree(g, acts, o);
    FitOne(acts, Exposed(node, o.option, o.name));
    OptionReflects(g, acts, o);
  }

  // ---------------------------------------------------------------------------
  // The whole text
  // ---------------------------------------------------------------------------

  lemma StmtStarts(input: string, ts: seq<Token>, i: nat, s: Stmt)
    requires StmtSpelled(input, ts, i, s)
    ensures i < |ts| && KindAt(ts, i) == match s
      case Break => StmtSeparator
      case Inport(_, _, _) => InportKeyword
      case Outport(_, _, _) => OutportKeyword
      case Declare(_, _, _) => DeclareKeyword
      case Expose(_, _, _) => OptionKeyword
      case Chain(_, _) => Identifier
  {
    hide LinksSpelled, PortSpelled, TextAt, PairsSpelled;
  }

  lemma StmtSays(input: string, ts: seq<Token>, i: nat, g: GraphData, acts: seq<Act>, s: Stmt)
    requires Lexical(input, ts) && i < |ts| && !AfterColon(ts, i) && Fit(input, g, EndBefore(ts, i)) && Reflects(g, acts)
    requires StmtSpelled(input, ts, i, s)
    ensures var (h, p) := ReadStmt(input, ts, i, g);
      && Says(p.Got?, h, acts, StmtActs(ts, i, s)) && (p.Got? ==> p.next == i + StmtSize(s))
  {
    hide Lexical, Fit, ReadInport, ReadOutport, ReadDeclare, ReadOption, ReadConnections, Reflects, StmtSpelled, FitAll;
    StmtStarts(input, ts, i, s);
    match s
    case Break => FitNone(acts);
    case Inport(_, _, _) => InportSays(input, ts, i, g, acts, s);
    case Outport(_, _, _) => OutportSays(input, ts, i, g, acts, s);
    case Declare(_, _, _) => DeclareSays(input, ts, i, g, acts, s);
    case Expose(_, _, _) => ExposeSays(input, ts, i, g, acts, s);
    case Chain(_, _) => ConnectionsSay(input, ts, i, g, acts, s);
  }

  lemma {:induction false} AllSay(input: string, ts: seq<Token>, i: nat, g: GraphData, acts: seq<Act>, stmts: seq<Stmt>)
    requires Lexical(input, ts) && i <= |ts| && !AfterColon(ts, i) && Fit(input, g, EndBefore(ts, i)) && Reflects(g, acts)
    requires Spelled(input, ts, i, stmts)
    ensures var (h, p) := ReadAll(input, ts, i, g); Says(p.Got?, h, acts, Acts(ts, i, stmts))
    decreases |stmts|
  {
    hide Lexical, Fit, ReadStmt, Reflects, StmtSpelled, FitAll, StmtActs, StmtSize, Extends;
    if stmts == [] {
      FitNone(acts);
    } else {
      var s, rest := stmts[0], stmts[1..];
      StmtStarts(input, ts, i, s);
      StmtSays(input, ts, i, g, acts, s);
      StmtFits(input, ts, i, g);
      var (h, p) := ReadStmt(input, ts, i, g);
      var a, b := StmtActs(ts, i, s), Acts(ts, i + StmtSize(s), rest);
      SaysMore(p.Got?, h, acts, a, b);
      if p.Got? {
        SaidSo(true, h, acts, a);
        AllSay(input, ts, p.next, h, acts + a, rest);
        SaysBoth(true, ReadAll(input, ts, p.next, h).1.Got?, h, ReadAll(input, ts, p.next, h).0, acts, a, b);
      }
    }
  }

  // ---------------------------------------------------------------------------
  // What is read was spelled
  // ---------------------------------------------------------------------------

  lemma IndexRead(input: string, ts: seq<Token>, i: nat) returns (index: Option<string>)
    requires i <= |ts| && ReadIndex(input, ts, i).Got?
    ensures IndexSpelled(input, ts, i, index) && ReadIndex(input, ts, i) == Got(IndexOf(index), i + IndexSize(index))
  {
    hide TextAt, PortIndex;
    index := if Is(ts, i, BracketOpen) then Some(TextAt(input, ts, i + 1)) else None;
  }

  lemma PortRead(input: string, ts: seq<Token>, i: nat) returns (p: PortText)
    requires ReadPort(input, ts, i).Got?
    ensures PortSpelled(input, ts, i, p) && ReadPort(input, ts, i) == Got(PortRef(p.name, IndexOf(p.index)), i + PortSize(p))
  {
    hide TextAt, IndexOf, ReadIndex;
    var index := IndexRead(input, ts, i + 1);
    p := PortText(TextAt(input, ts, i), index);
  }

  lemma PairRead(input: string, ts: seq<Token>, i: nat, first: bool) returns (p: PairText)
    requires ReadPair(input, ts, i, first).Got?
    ensures var k := if first then i else i + 1;
      (!first ==> Is(ts, i, Comma)) && PairSpelled(input, ts, k, p) && ReadPair(input, ts, i, first).next == k + PairSize(p)
  {
    hide TextAt;
    var k := if first then i else i + 1;
    p := PairText(TextAt(input, ts, k), if Is(ts, k + 1, Equal) then Some(TextAt(input, ts, k + 2)) else None);
  }

  lemma {:induction false} PairsRead(input: string, ts: seq<Token>, i: nat, first: bool, ns: seq<Node>, n: nat) returns (ps: seq<PairText>)
    requires i <= |ts| && ReadPairs(input, ts, i, first, ns, n).1.Got?
    ensures PairsSpelled(input, ts, i, ps, first) && ReadPairs(input, ts, i, first, ns, n).1.next == i + PairsSize(ps, first)
    ensures Is(ts, i + PairsSize(ps, first), ParenClose)
    decreases |ts| - i
  {
    hide ReadPair, MetaAdded, PairSpelled, PairSize;
    ps := [];
    if !Is(ts, i, ParenClose) {
      var p := PairRead(input, ts, i, first);
      var r := ReadPair(input, ts, i, first);
      var rest := PairsRead(input, ts, r.next, false, MetaAdded(ns, n, r.value).0, n);
      ps := [p] + rest;
      assert ps[1..] == rest;
    }
  }

  lemma NodeRead(input: string, ts: seq<Token>, i: nat, ns: seq<Node>) returns (n: NodeText)
    requires ReadNode(input, ts, i, ns).1.Got?
    ensures NodeSpelled(input, ts, i, n) && ReadNode(input, ts, i, ns).1.next == i + NodeSize(n)
  {
    hide TextAt, Place, ReadPairs, PairsSpelled, PairsSize;
    var name := TextAt(input, ts, i);
    if !Is(ts, i + 1, ParenOpen) {
      n := Bare(name);
    } else if Is(ts, i + 2, ParenClose) {
      n := Empty(name);
    } else {
      var component := TextAt(input, ts, i + 2);
      if Is(ts, i + 3, Colon) {
        var (ms, p) := Place(ns, name, component, PosAt(ts, i), i + 3);
        var ps := PairsRead(input, ts, i + 4, true, ms, p.value);
        n := Full(name, component, Some(ps));
      } else {
        n := Full(name, component, None);
      }
    }
  }

  lemma LinkRead(input: string, ts: seq<Token>, i: nat, g: GraphData, src: nat) returns (l: LinkText)
    requires ReadConn(input, ts, i, g, src).1.Got?
    ensures LinkSpelled(input, ts, i, l) && ReadConn(input, ts, i, g, src).1.next == i + LinkSize(l)
  {
    hide TextAt, ReadPort, ReadNode, PortSpelled, NodeSpelled, PortSize, NodeSize, IndexOf, ConnAdded, OutPortAdded, InPortAdded;
    var source := PortRead(input, ts, i);
    var (ms, p) := ReadSource(input, ts, i, g.nodes, src);
    var target := PortRead(input, ts, p.next);
    var node := NodeRead(input, ts, ReadTargetPort(input, ts, p.next).next, ms);
    l := LinkText(source, target, node);
  }

  lemma {:induction false} LinksRead(input: string, ts: seq<Token>, i: nat, g: GraphData, src: nat) returns (ls: seq<LinkText>)
    requires i <= |ts| && ReadChain(input, ts, i, g, src).1.Got?
    ensures LinksSpelled(input, ts, i, ls) && ReadChain(input, ts, i, g, src).1.next == i + LinksSize(ls)
    ensures !Is(ts, i + LinksSize(ls), Identifier) && (ls == [] <==> !Is(ts, i, Identifier))
    decreases |ts| - i
  {
    hide ReadConn, LinkSpelled, LinkSize;
    ls := [];
    if Is(ts, i, Identifier) {
      var l := LinkRead(input, ts, i, g, src);
      var (h, p) := ReadConn(input, ts, i, g, src);
      var rest := LinksRead(input, ts, p.next, h, p.value);
      ls := [l] + rest;
      assert ls[1..] == rest;
    }
  }

  lemma ChainRead(input: string, ts: seq<Token>, i: nat, g: GraphData) returns (s: Stmt)
    requires ReadConnections(input, ts, i, g).1.Got?
    requires var j := ReadConnections(input, ts, i, g).1.next; ChainEnds(ts, j, true) || Is(ts, j, Identifier)
    ensures StmtSpelled(input, ts, i, s) && ReadConnections(input, ts, i, g).1.next == i + StmtSize(s)
  {
    hide ReadNode, ReadChain, NodeSpelled, LinksSpelled, NodeSize, LinksSize;
    var first := NodeRead(input, ts, i, g.nodes);
    var (ms, p) := ReadNode(input, ts, i, g.nodes);
    var links := LinksRead(input, ts, p.next, g.(nodes := ms), p.value);
    s := Chain(first, links);
    NoLinks(links);
  }

  lemma ExportRead(input: string, ts: seq<Token>, i: nat, keyword: TokenType) returns (node: string, port: PortText, name: string)
    requires Is(ts, i, keyword) && ReadExported(input, ts, i + 1).Got?
    ensures ExportSpelled(input, ts, i, keyword, node, port, name) && ReadExported(input, ts, i + 1).next == i + 6 + PortSize(port)
  {
    hide TextAt, ReadIndex, IndexOf, IndexSpelled, IndexSize;
    var index := IndexRead(input, ts, i + 5);
    port := PortText(TextAt(input, ts, i + 4), index);
    node, name := TextAt(input, ts, i + 2), TextAt(input, ts, i + 5 + PortSize(port));
  }

  /** What follows a statement that was read: the end, or the start of another. */
  lemma StmtRead(input: string, ts: seq<Token>, i: nat, g: GraphData) returns (s: Stmt)
    requires i < |ts| && ReadStmt(input, ts, i, g).1.Got?
    requires var j := ReadStmt(input, ts, i, g).1.next; ChainEnds(ts, j, true) || Is(ts, j, Identifier)
    ensures StmtSpelled(input, ts, i, s) && ReadStmt(input, ts, i, g).1.next == i + StmtSize(s)
  {
    hide TextAt, ReadConnections, ReadExported, ExportSpelled, Place, ExportAdded, OptionAdded, DeclarationAdded, PortSize, InPortAdded, OutPortAdded;
    var k := KindAt(ts, i);
    if k == InportKeyword {
      var node, port, name := ExportRead(input, ts, i, k);
      s := Inport(node, port, name);
    } else if k == OutportKeyword {
      var node, port, name := ExportRead(input, ts, i, k);
      s := Outport(node, port, name);
    } else if k == DeclareKeyword {
      s := Declare(TextAt(input, ts, i + 2), TextAt(input, ts, i + 4), TextAt(input, ts, i + 6));
    } else if k == OptionKeyword {
      s := Expose(TextAt(input, ts, i + 2), TextAt(input, ts, i + 4), TextAt(input, ts, i + 6));
    } else if k == Identifier {
      s := ChainRead(input, ts, i, g);
    } else {
      s := Break;
    }
  }

  lemma {:induction false} AllRead(input: string, ts: seq<Token>, i: nat, g: GraphData) returns (stmts: seq<Stmt>)
    requires i <= |ts| && ReadAll(input, ts, i, g).1.Got?
    ensures Spelled(input, ts, i, stmts)
    decreases |ts| - i
  {
    hide ReadStmt, StmtSpelled, StmtSize;
    stmts := [];
    if !Is(ts, i, Eof) {
      var (h, r) := ReadStmt(input, ts, i, g);
      var rest := AllRead(input, ts, r.next, h);
      if rest != [] {
        StmtStarts(input, ts, r.next, rest[0]);
      }
      var s := StmtRead(input, ts, i, g);
      stmts := [s] + rest;
      assert stmts[1..] == rest;
    }
  }

  // ---------------------------------------------------------------------------
  // Acceptance
  // ---------------------------------------------------------------------------

  lemma TypedIsGiven(ns: seq<Node>, acts: seq<Act>)
    requires NodesReflect(ns, acts)
    ensures FindUntyped(ns) == |ns| <==> AllGiven(acts)
  {
    hide Given, HasKey;
    if AllGiven(acts) {
      forall n | 0 <= n < |ns|
        ensures ns[n].component != ""
      {
        NodeIsThere(ns, n);
        var a :| a in acts && a.Use? && a.name == ns[n].name;
      }
    }
    if FindUntyped(ns) == |ns| {
      forall a | a in acts && a.Use?
        ensures Given(acts, a.name)
      {
        assert Mentioned(acts, a.name);
        var n :| 0 <= n < |ns| && ns[n].name == a.name;
      }
    }
  }

  lemma LegalIsFit(acts: seq<Act>)
    ensures Legal(acts) <==> AllGiven(acts) && FitAll([], acts)
  {
    hide Fits, AllGiven;
    assert forall k :: 0 <= k <= |acts| ==> [] + acts[..k] == acts[..k];
  }

  /** A text whose tokens spell statements is accepted exactly if those are legal, and its graph is what they say. */
  lemma SpelledIsAccepted(input: string, stmts: seq<Stmt>)
    requires Spelled(input, LexAll(input, DefaultState, 0), 0, stmts)
    ensures var (g, v) := Interpret(input); var acts := Acts(LexAll(input, DefaultState, 0), 0, stmts);
      (v.Accepted? <==> Legal(acts)) && (v.Accepted? ==> Reflects(g, acts))
  {
    hide LexAll, ReadAll, Spelled, Acts, Legal, Lexical, Fit, FitAll, NodesReflect, ConnsReflect, InsReflect, OutsReflect, OptionsReflect;
    hide AllGiven;
    var ts := LexAll(input, DefaultState, 0);
    TextIsLexical(input);
    EmptyFits(input);
    NothingSaid();
    AllSay(input, ts, 0, EMPTY, [], stmts);
    var (g, r) := ReadAll(input, ts, 0, EMPTY);
    var acts := Acts(ts, 0, stmts);
    assert [] + acts == acts;
    LegalIsFit(acts);
    if r.Got? {
      TypedIsGiven(g.nodes, acts);
    }
  }

  /** The texts that are accepted are those whose tokens spell legal statements. */
  lemma AcceptedExactly(input: string)
    ensures var ts := LexAll(input, DefaultState, 0);
      Interpret(input).1.Accepted? <==> exists stmts :: Spelled(input, ts, 0, stmts) && Legal(Acts(ts, 0, stmts))
  {
    hide LexAll, ReadAll, Spelled, Acts, Legal;
    var ts := LexAll(input, DefaultState, 0);
    if Interpret(input).1.Accepted? {
      var stmts := AllRead(input, ts, 0, EMPTY);
      SpelledIsAccepted(input, stmts);
    }
    if stmts :| Spelled(input, ts, 0, stmts) && Legal(Acts(ts, 0, stmts)) {
      SpelledIsAccepted(input, stmts);
    }
  }

  /** What is legal is accepted when it is written out, and nothing else is. */
  lemma WrittenIsAccepted(stmts: seq<Stmt>)
    requires FbpWriting.Writable(stmts)
    ensures var input := FbpWriting.Written(stmts);
      var (g, v) := Interpret(input); var acts := Acts(LexAll(input, DefaultState, 0), 0, stmts);
      (v.Accepted? <==> Legal(acts)) && (v.Accepted? ==> Reflects(g, acts))
  {
    hide LexAll, Spelled, Acts, Legal, Reflects;
    FbpWriting.WrittenIsSpelled(stmts);
    SpelledIsAccepted(FbpWriting.Written(stmts), stmts);
  }
}
