/**
 How the graph keeps track of what was said: each of its functions succeeds exactly if what is
 added fits what was said before.
 */
module FbpLegal {
  import opened Wrappers
  import opened FbpTokens
  import opened FbpGraph
  import opened FbpGrammar

  predicate Mentioned(acts: seq<Act>, name: string) {
    exists a :: a in acts && a.Use? && a.name == name
  }

  function NameOf(ns: seq<Node>, n: nat): string {
    if n < |ns| then ns[n].name else ""
  }

  function ConnAct(ns: seq<Node>, c: Conn): Act {
    Link(NameOf(ns, c.src), c.srcPort, c.srcIdx, NameOf(ns, c.dst), c.dstPort, c.dstIdx)
  }

  function InAct(ns: seq<Node>, e: Exported): Act {
    In(NameOf(ns, e.node), e.port, e.idx, e.name)
  }

  function OutAct(ns: seq<Node>, e: Exported): Act {
    Out(NameOf(ns, e.node), e.port, e.idx, e.name)
  }

  ghost predicate NodesReflect(ns: seq<Node>, acts: seq<Act>) {
    && (forall x :: HasNode(ns, x) <==> Mentioned(acts, x))
    && (forall n :: 0 <= n < |ns| ==> (ns[n].component != "" <==> Given(acts, ns[n].name)))
    && (forall n, k :: 0 <= n < |ns| ==> (HasKey(ns[n].meta, k) <==> Key(ns[n].name, k) in acts))
    && (forall a :: a in acts && a.Key? ==> Mentioned(acts, a.node))
  }

  ghost predicate ConnsReflect(ns: seq<Node>, cs: seq<Conn>, acts: seq<Act>) {
    && (forall i :: 0 <= i < |cs| ==> ConnAct(ns, cs[i]) in acts)
    && (forall a :: a in acts && a.Link? ==> exists i :: 0 <= i < |cs| && ConnAct(ns, cs[i]) == a)
  }

  ghost predicate InsReflect(ns: seq<Node>, es: seq<Exported>, acts: seq<Act>) {
    && (forall i :: 0 <= i < |es| ==> InAct(ns, es[i]) in acts)
    && (forall a :: a in acts && a.In? ==> exists i :: 0 <= i < |es| && InAct(ns, es[i]) == a)
  }

  ghost predicate OutsReflect(ns: seq<Node>, es: seq<Exported>, acts: seq<Act>) {
    && (forall i :: 0 <= i < |es| ==> OutAct(ns, es[i]) in acts)
    && (forall a :: a in acts && a.Out? ==> exists i :: 0 <= i < |es| && OutAct(ns, es[i]) == a)
  }

  ghost predicate DeclarationsReflect(ds: seq<Declaration>, acts: seq<Act>) {
    && (forall i :: 0 <= i < |ds| ==> Declared(ds[i].name, ds[i].metatype, ds[i].contents) in acts)
    && (forall a :: a in acts && a.Declared? ==> HasDeclaration(ds, a.name))
  }

  ghost predicate OptionsReflect(ns: seq<Node>, os: seq<NodeOption>, acts: seq<Act>) {
    && (forall i :: 0 <= i < |os| ==> Exposed(NameOf(ns, os[i].node), os[i].option, os[i].name) in acts)
    && (forall a :: a in acts && a.Exposed? ==> HasOption(os, a.name))
  }

  /** The graph holds what was said and nothing else. */
  ghost predicate Reflects(g: GraphData, acts: seq<Act>) {
    && NodesReflect(g.nodes, acts) && ConnsReflect(g.nodes, g.conns, acts)
    && InsReflect(g.nodes, g.exportedIn, acts) && OutsReflect(g.nodes, g.exportedOut, acts)
    && DeclarationsReflect(g.declarations, acts) && OptionsReflect(g.nodes, g.options, acts)
  }

  lemma NothingSaid()
    ensures Reflects(EMPTY, [])
  {
  }

  // ---------------------------------------------------------------------------
  // Nodes
  // ---------------------------------------------------------------------------

  /** What is in a list with one more. */
  lemma OneMore(acts: seq<Act>, a: Act)
    ensures forall b :: b in acts + [a] <==> b in acts || b == a
  {
  }

  lemma UseFits(ns: seq<Node>, acts: seq<Act>, name: string, component: string, pos: Position)
    requires NodesOk(ns) && NodesReflect(ns, acts) && (name == "_" ==> !HasNode(ns, AnonName(pos)))
    ensures NodeAdded(ns, name, component, pos).1.Index? <==> Fits(acts, Use(StoredName(name, pos), component, name == "_"))
  {
    hide AnonName, NodesOk;
    var stored := StoredName(name, pos);
    var i := FindNode(ns, name);
    assert name != "_" ==> (i == |ns| <==> !HasNode(ns, name));
    assert Given(acts, stored) ==> Mentioned(acts, stored);
    assert (forall b :: b in acts ==> !Clash(b, Use(stored, component, name == "_"))) <==> component == "" || !Given(acts, stored);
  }

  lemma MentionedMore(acts: seq<Act>, a: Act)
    ensures forall x :: Mentioned(acts + [a], x) <==> Mentioned(acts, x) || (a.Use? && a.name == x)
    ensures forall x :: Given(acts + [a], x) <==> Given(acts, x) || (a.Use? && a.name == x && a.component != "")
    ensures forall b :: b in acts + [a] <==> b in acts || b == a
  {
    forall x
      ensures Mentioned(acts + [a], x) <==> Mentioned(acts, x) || (a.Use? && a.name == x)
      ensures Given(acts + [a], x) <==> Given(acts, x) || (a.Use? && a.name == x && a.component != "")
    {
      if Mentioned(acts, x) {
        var b :| b in acts && b.Use? && b.name == x;
        assert b in acts + [a];
      }
      if Given(acts, x) {
        var b :| b in acts && b.Use? && b.name == x && b.component != "";
        assert b in acts + [a];
      }
      assert a in acts + [a];
    }
  }

  lemma PlacedNames(ns: seq<Node>, ms: seq<Node>, n: nat, name: string, component: string, pos: Position)
    requires Placed(ns, ms, n, name, component, pos)
    ensures forall x :: HasNode(ms, x) <==> HasNode(ns, x) || x == name
  {
    forall x
      ensures HasNode(ms, x) <==> HasNode(ns, x) || x == name
    {
      if HasNode(ns, x) {
        var i :| 0 <= i < |ns| && ns[i].name == x;
        assert ms[i].name == x;
      }
    }
  }

  lemma UseReflects(ns: seq<Node>, ms: seq<Node>, n: nat, acts: seq<Act>, name: string, component: string, pos: Position, anonymous: bool)
    requires NodesReflect(ns, acts) && Placed(ns, ms, n, name, component, pos) && NodesOk(ms)
    ensures NodesReflect(ms, acts + [Use(name, component, anonymous)])
  {
    hide HasNode, Mentioned, Given, NodeOk;
    MentionedMore(acts, Use(name, component, anonymous));
    PlacedNames(ns, ms, n, name, component, pos);
    GivenIsMentioned(acts);
  }

  lemma GivenIsMentioned(acts: seq<Act>)
    ensures forall x :: Given(acts, x) ==> Mentioned(acts, x)
  {
  }

  lemma KeyFits(ns: seq<Node>, acts: seq<Act>, n: nat, m: Meta)
    requires NodesReflect(ns, acts) && n < |ns|
    ensures MetaAdded(ns, n, m).1.Index? <==> Fits(acts, Key(ns[n].name, m.key))
  {
    hide HasNode, Mentioned, Given, HasKey;
  }

  lemma KeyReflects(ns: seq<Node>, acts: seq<Act>, n: nat, m: Meta)
    requires NodesReflect(ns, acts) && n < |ns| && NodesOk(ns)
    ensures NodesReflect(WithMetas(ns, n, [m]), acts + [Key(ns[n].name, m.key)])
  {
    hide Mentioned, Given, NodeOk, HasKey, HasNode;
    var ms := WithMetas(ns, n, [m]);
    MentionedMore(acts, Key(ns[n].name, m.key));
    KeyAdded(ns[n].meta, m);
    SameNames(ns, ms);
    assert HasNode(ns, ns[n].name) by { NodeIsThere(ns, n); }
  }

  lemma NodeIsThere(ns: seq<Node>, n: nat)
    requires n < |ns|
    ensures HasNode(ns, ns[n].name)
  {
  }

  lemma SameNames(ns: seq<Node>, ms: seq<Node>)
    requires |ms| == |ns| && forall i :: 0 <= i < |ns| ==> ms[i].name == ns[i].name
    ensures forall x :: HasNode(ms, x) <==> HasNode(ns, x)
  {
    forall x
      ensures HasNode(ms, x) <==> HasNode(ns, x)
    {
      if HasNode(ns, x) {
        var i :| 0 <= i < |ns| && ns[i].name == x;
        assert ms[i].name == x;
      }
    }
  }

  lemma KeyAdded(ms: seq<Meta>, m: Meta)
    ensures forall k :: HasKey(ms + [m], k) <==> HasKey(ms, k) || m.key == k
  {
    forall k
      ensures HasKey(ms + [m], k) <==> HasKey(ms, k) || m.key == k
    {
      if HasKey(ms, k) {
        var i :| 0 <= i < |ms| && ms[i].key == k;
        assert (ms + [m])[i].key == k;
      }
      assert (ms + [m])[|ms|] == m;
    }
  }

  // ---------------------------------------------------------------------------
  // What nodes do not touch
  // ---------------------------------------------------------------------------

  /** The indexes in the graph are valid. */
  predicate Placeable(g: GraphData) {
    && (forall i :: 0 <= i < |g.conns| ==> g.conns[i].src < |g.nodes| && g.conns[i].dst < |g.nodes|)
    && (forall i :: 0 <= i < |g.exportedIn| ==> g.exportedIn[i].node < |g.nodes|)
    && (forall i :: 0 <= i < |g.exportedOut| ==> g.exportedOut[i].node < |g.nodes|)
    && (forall i :: 0 <= i < |g.options| ==> g.options[i].node < |g.nodes|)
  }

  lemma OkIsPlaceable(g: GraphData)
    requires GraphOk(g)
    ensures Placeable(g) && NodesOk(g.nodes)
  {
    hide NodesOk, ExportsListed, DeclarationsOk;
    forall i | 0 <= i < |g.conns|
      ensures g.conns[i].src < |g.nodes| && g.conns[i].dst < |g.nodes|
    {
      assert ConnOk(g.nodes, g.conns[i]);
    }
  }

  /** The acts that are about something else than nodes. */
  predicate SameOthers(acts: seq<Act>, more: seq<Act>) {
    && (forall a :: a in acts ==> a in more)
    && (forall a :: a in more && !a.Use? && !a.Key? ==> a in acts)
  }

  /** Nodes that only gain change nothing that is said of others. */
  lemma OthersKept(g: GraphData, ms: seq<Node>, acts: seq<Act>, more: seq<Act>)
    requires Placeable(g) && Reflects(g, acts) && Extends(g.nodes, ms) && NodesReflect(ms, more) && SameOthers(acts, more)
    ensures Reflects(g.(nodes := ms), more)
  {
    hide NodesReflect;
    NamesStay(g, ms);
    ConnsKept(g, ms, acts, more);
    InsKept(g, ms, acts, more);
    OutsKept(g, ms, acts, more);
    OptionsKept(g, ms, acts, more);
  }

  lemma NamesStay(g: GraphData, ms: seq<Node>)
    requires Extends(g.nodes, ms)
    ensures forall n: nat :: n < |g.nodes| ==> NameOf(ms, n) == NameOf(g.nodes, n)
  {
  }

  lemma ConnsKept(g: GraphData, ms: seq<Node>, acts: seq<Act>, more: seq<Act>)
    requires Placeable(g) && ConnsReflect(g.nodes, g.conns, acts) && SameOthers(acts, more)
    requires forall n: nat :: n < |g.nodes| ==> NameOf(ms, n) == NameOf(g.nodes, n)
    ensures ConnsReflect(ms, g.conns, more)
  {
    assert forall i :: 0 <= i < |g.conns| ==> ConnAct(ms, g.conns[i]) == ConnAct(g.nodes, g.conns[i]);
  }

  lemma InsKept(g: GraphData, ms: seq<Node>, acts: seq<Act>, more: seq<Act>)
    requires Placeable(g) && InsReflect(g.nodes, g.exportedIn, acts) && SameOthers(acts, more)
    requires forall n: nat :: n < |g.nodes| ==> NameOf(ms, n) == NameOf(g.nodes, n)
    ensures InsReflect(ms, g.exportedIn, more)
  {
    assert forall i :: 0 <= i < |g.exportedIn| ==> InAct(ms, g.exportedIn[i]) == InAct(g.nodes, g.exportedIn[i]);
  }

  lemma OutsKept(g: GraphData, ms: seq<Node>, acts: seq<Act>, more: seq<Act>)
    requires Placeable(g) && OutsReflect(g.nodes, g.exportedOut, acts) && SameOthers(acts, more)
    requires forall n: nat :: n < |g.nodes| ==> NameOf(ms, n) == NameOf(g.nodes, n)
    ensures OutsReflect(ms, g.exportedOut, more)
  {
    assert forall i :: 0 <= i < |g.exportedOut| ==> OutAct(ms, g.exportedOut[i]) == OutAct(g.nodes, g.exportedOut[i]);
  }

  lemma OptionsKept(g: GraphData, ms: seq<Node>, acts: seq<Act>, more: seq<Act>)
    requires Placeable(g) && OptionsReflect(g.nodes, g.options, acts) && SameOthers(acts, more)
    requires forall n: nat :: n < |g.nodes| ==> NameOf(ms, n) == NameOf(g.nodes, n)
    ensures OptionsReflect(ms, g.options, more)
  {
  }

  /** Ports are not said anything about. */
  lemma PortsReflect(ns: seq<Node>, ms: seq<Node>, acts: seq<Act>)
    requires NodesReflect(ns, acts) && |ms| == |ns|
    requires forall n :: 0 <= n < |ns| ==> ms[n] == ns[n].(inPorts := ms[n].inPorts, outPorts := ms[n].outPorts)
    ensures NodesReflect(ms, acts)
  {
    hide HasNode, Mentioned, Given, HasKey;
    SameNames(ns, ms);
  }

  // ---------------------------------------------------------------------------
  // The other entries
  // ---------------------------------------------------------------------------

  /** Something that is not about nodes leaves what is said of them. */
  lemma NodesStay(ns: seq<Node>, acts: seq<Act>, a: Act)
    requires NodesReflect(ns, acts) && !a.Use? && !a.Key?
    ensures NodesReflect(ns, acts + [a])
  {
    hide HasNode, Mentioned, Given, HasKey;
    MentionedMore(acts, a);
  }

  lemma NamesTell(ns: seq<Node>, i: nat, j: nat)
    requires NodesOk(ns) && i < |ns| && j < |ns|
    ensures NameOf(ns, i) == NameOf(ns, j) <==> i == j
  {
    hide NodeOk;
  }

  lemma LinkFits(g: GraphData, acts: seq<Act>, c: Conn)
    requires Placeable(g) && NodesOk(g.nodes) && ConnsReflect(g.nodes, g.conns, acts) && c.src < |g.nodes| && c.dst < |g.nodes|
    ensures ConnAdded(g.conns, c).1.Index? <==> Fits(acts, ConnAct(g.nodes, c))
  {
    hide NodesOk;
    var a := ConnAct(g.nodes, c);
    forall i | 0 <= i < |g.conns|
      ensures SameConn(g.conns[i], c) <==> ConnAct(g.nodes, g.conns[i]) == a
    {
      NamesTell(g.nodes, g.conns[i].src, c.src);
      NamesTell(g.nodes, g.conns[i].dst, c.dst);
    }
    assert HasConn(g.conns, c) <==> a in acts;
  }

  lemma LinkReflects(g: GraphData, acts: seq<Act>, c: Conn)
    requires Reflects(g, acts)
    ensures Reflects(g.(conns := g.conns + [c]), acts + [ConnAct(g.nodes, c)])
  {
    hide NodesReflect;
    var a := ConnAct(g.nodes, c);
    NodesStay(g.nodes, acts, a);
    OneMore(acts, a);
    ConnsMore(g.nodes, g.conns, acts, c);
  }

  lemma ConnsMore(ns: seq<Node>, cs: seq<Conn>, acts: seq<Act>, c: Conn)
    requires ConnsReflect(ns, cs, acts)
    ensures ConnsReflect(ns, cs + [c], acts + [ConnAct(ns, c)])
  {
    hide ConnAct;
    var a, ds := ConnAct(ns, c), cs + [c];
    OneMore(acts, a);
    forall b | b in acts + [a] && b.Link?
      ensures exists i :: 0 <= i < |ds| && ConnAct(ns, ds[i]) == b
    {
      if b in acts {
        var i :| 0 <= i < |cs| && ConnAct(ns, cs[i]) == b;
        assert ds[i] == cs[i];
      } else {
        assert ds[|cs|] == c;
      }
    }
  }

  lemma InFits(g: GraphData, acts: seq<Act>, e: Exported)
    requires Placeable(g) && NodesOk(g.nodes) && InsReflect(g.nodes, g.exportedIn, acts) && e.node < |g.nodes|
    ensures ExportAdded(g.exportedIn, e).1.Index? <==> Fits(acts, InAct(g.nodes, e))
  {
    hide NodesOk;
    var a := InAct(g.nodes, e);
    forall i | 0 <= i < |g.exportedIn|
      ensures Clashes(g.exportedIn[i], e) <==> Clash(InAct(g.nodes, g.exportedIn[i]), a)
    {
      NamesTell(g.nodes, g.exportedIn[i].node, e.node);
    }
  }

  lemma InReflects(g: GraphData, acts: seq<Act>, e: Exported)
    requires Reflects(g, acts)
    ensures Reflects(g.(exportedIn := g.exportedIn + [e]), acts + [InAct(g.nodes, e)])
  {
    hide NodesReflect;
    var a := InAct(g.nodes, e);
    NodesStay(g.nodes, acts, a);
    OneMore(acts, a);
    InsMore(g.nodes, g.exportedIn, acts, e);
  }

  lemma InsMore(ns: seq<Node>, es: seq<Exported>, acts: seq<Act>, e: Exported)
    requires InsReflect(ns, es, acts)
    ensures InsReflect(ns, es + [e], acts + [InAct(ns, e)])
  {
    hide InAct;
    var a, fs := InAct(ns, e), es + [e];
    OneMore(acts, a);
    forall b | b in acts + [a] && b.In?
      ensures exists i :: 0 <= i < |fs| && InAct(ns, fs[i]) == b
    {
      if b in acts {
        var i :| 0 <= i < |es| && InAct(ns, es[i]) == b;
        assert fs[i] == es[i];
      } else {
        assert fs[|es|] == e;
      }
    }
  }

  lemma OutFits(g: GraphData, acts: seq<Act>, e: Exported)
    requires Placeable(g) && NodesOk(g.nodes) && OutsReflect(g.nodes, g.exportedOut, acts) && e.node < |g.nodes|
    ensures ExportAdded(g.exportedOut, e).1.Index? <==> Fits(acts, OutAct(g.nodes, e))
  {
    hide NodesOk;
    var a := OutAct(g.nodes, e);
    forall i | 0 <= i < |g.exportedOut|
      ensures Clashes(g.exportedOut[i], e) <==> Clash(OutAct(g.nodes, g.exportedOut[i]), a)
    {
      NamesTell(g.nodes, g.exportedOut[i].node, e.node);
    }
  }

  lemma OutReflects(g: GraphData, acts: seq<Act>, e: Exported)
    requires Reflects(g, acts)
    ensures Reflects(g.(exportedOut := g.exportedOut + [e]), acts + [OutAct(g.nodes, e)])
  {
    hide NodesReflect;
    var a := OutAct(g.nodes, e);
    NodesStay(g.nodes, acts, a);
    OneMore(acts, a);
    OutsMore(g.nodes, g.exportedOut, acts, e);
  }

  lemma OutsMore(ns: seq<Node>, es: seq<Exported>, acts: seq<Act>, e: Exported)
    requires OutsReflect(ns, es, acts)
    ensures OutsReflect(ns, es + [e], acts + [OutAct(ns, e)])
  {
    hide OutAct;
    var a, fs := OutAct(ns, e), es + [e];
    OneMore(acts, a);
    forall b | b in acts + [a] && b.Out?
      ensures exists i :: 0 <= i < |fs| && OutAct(ns, fs[i]) == b
    {
      if b in acts {
        var i :| 0 <= i < |es| && OutAct(ns, es[i]) == b;
        assert fs[i] == es[i];
      } else {
        assert fs[|es|] == e;
      }
    }
  }

  lemma DeclarationFits(g: GraphData, acts: seq<Act>, d: Declaration)
    requires DeclarationsReflect(g.declarations, acts)
    ensures DeclarationAdded(g.declarations, d).1.Index? <==> Fits(acts, Declared(d.name, d.metatype, d.contents))
  {
  }

  lemma DeclarationReflects(g: GraphData, acts: seq<Act>, d: Declaration)
    requires Reflects(g, acts)
    ensures Reflects(g.(declarations := g.declarations + [d]), acts + [Declared(d.name, d.metatype, d.contents)])
  {
    hide NodesReflect;
    var a := Declared(d.name, d.metatype, d.contents);
    NodesStay(g.nodes, acts, a);
    OneMore(acts, a);
    DeclarationsMore(g.declarations, acts, d);
  }

  lemma DeclarationsMore(ds: seq<Declaration>, acts: seq<Act>, d: Declaration)
    requires DeclarationsReflect(ds, acts)
    ensures DeclarationsReflect(ds + [d], acts + [Declared(d.name, d.metatype, d.contents)])
  {
    var a, es := Declared(d.name, d.metatype, d.contents), ds + [d];
    OneMore(acts, a);
    forall b | b in acts + [a] && b.Declared?
      ensures HasDeclaration(es, b.name)
    {
      if b in acts {
        var i :| 0 <= i < |ds| && ds[i].name == b.name;
        assert es[i] == ds[i];
      } else {
        assert es[|ds|] == d;
      }
    }
  }

  lemma OptionIsFree(g: GraphData, acts: seq<Act>, o: NodeOption)
    requires OptionsReflect(g.nodes, g.options, acts)
    ensures OptionAdded(g.options, o).1.Index? <==> Fits(acts, Exposed(NameOf(g.nodes, o.node), o.option, o.name))
  {
  }

  lemma OptionReflects(g: GraphData, acts: seq<Act>, o: NodeOption)
    requires Reflects(g, acts)
    ensures Reflects(g.(options := g.options + [o]), acts + [Exposed(NameOf(g.nodes, o.node), o.option, o.name)])
  {
    hide NodesReflect;
    var a := Exposed(NameOf(g.nodes, o.node), o.option, o.name);
    NodesStay(g.nodes, acts, a);
    OneMore(acts, a);
    OptionsMore(g.nodes, g.options, acts, o);
  }

  lemma OptionsMore(ns: seq<Node>, os: seq<NodeOption>, acts: seq<Act>, o: NodeOption)
    requires OptionsReflect(ns, os, acts)
    ensures OptionsReflect(ns, os + [o], acts + [Exposed(NameOf(ns, o.node), o.option, o.name)])
  {
    var a, ps := Exposed(NameOf(ns, o.node), o.option, o.name), os + [o];
    OneMore(acts, a);
    forall b | b in acts + [a] && b.Exposed?
      ensures HasOption(ps, b.name)
    {
      if b in acts {
        var i :| 0 <= i < |os| && os[i].name == b.name;
        assert ps[i] == os[i];
      } else {
        assert ps[|os|] == o;
      }
    }
  }
}
