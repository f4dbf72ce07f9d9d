/**
 The graph an FBP text describes. Nodes, connections, exported ports, declarations and
 options are appended to vectors after a linear search for what they would duplicate.
 */
module FbpGraph {
  import opened Decimals
  import opened FbpTokens

  datatype Meta = Meta(key: string, value: string, pos: Position)

  datatype Port = Port(name: string, pos: Position)

  datatype Node = Node(name: string, component: string, pos: Position, meta: seq<Meta>, inPorts: seq<Port>, outPorts: seq<Port>)

  datatype Conn = Conn(src: nat, srcPort: string, srcIdx: int, dst: nat, dstPort: string, dstIdx: int, pos: Position)

  datatype Exported = Exported(node: nat, port: string, idx: int, name: string, pos: Position)

  datatype Declaration = Declaration(name: string, metatype: string, contents: string, pos: Position)

  datatype NodeOption = NodeOption(name: string, option: string, node: nat, pos: Position)

  datatype GraphData = GraphData(
    nodes: seq<Node>, conns: seq<Conn>, exportedIn: seq<Exported>, exportedOut: seq<Exported>,
    declarations: seq<Declaration>, options: seq<NodeOption>)

  /** What the functions return: an index or 0, or one of the error codes. */
  datatype Outcome = Index(i: nat) | Einval | Eexist | Eaddrinuse

  // ---------------------------------------------------------------------------
  // Names of anonymous nodes
  // ---------------------------------------------------------------------------

  /** "#anon:%d:%d". */
  function AnonName(p: Position): string {
    "#anon:" + Decimal(p.line) + ":" + Decimal(p.column)
  }

  /** A separator that is no digit keeps the two numbers apart. */
  lemma SeparatedInjective(a: string, b: string, c: string, d: string)
    requires All(a, IsDigit) && All(c, IsDigit) && a + ":" + b == c + ":" + d
    ensures a == c && b == d
  {
    var s := a + ":" + b;
    assert s[|a|] == ':' && s[|c|] == ':';
    assert forall i :: 0 <= i < |a| ==> s[i] == a[i];
    assert forall i :: 0 <= i < |c| ==> s[i] == c[i];
    assert |a| == |c|;
    assert a == s[..|a|] && c == s[..|c|];
    assert b == s[|a| + 1..] && d == s[|c| + 1..];
  }

  lemma AnonNameInjective(p: Position, q: Position)
    requires AnonName(p) == AnonName(q)
    ensures p == q
  {
    var a, b := Decimal(p.line), Decimal(p.column);
    var c, d := Decimal(q.line), Decimal(q.column);
    assert AnonName(p)[6..] == a + ":" + b && AnonName(q)[6..] == c + ":" + d;
    SeparatedInjective(a, b, c, d);
    DecimalInjective(p.line, q.line);
    DecimalInjective(p.column, q.column);
  }

  /** Different offsets have different positions. */
  lemma {:induction false} PositionInjective(input: string, i: nat, j: nat)
    requires i < j <= |input|
    ensures PositionAt(input, i).line <= PositionAt(input, j).line
    ensures PositionAt(input, i).line == PositionAt(input, j).line ==> PositionAt(input, i).column < PositionAt(input, j).column
  {
    if i < j - 1 {
      PositionInjective(input, i, j - 1);
    }
  }

  // ---------------------------------------------------------------------------
  // What every graph satisfies
  // ---------------------------------------------------------------------------

  function PortNames(ps: seq<Port>): set<string> {
    set p | p in ps :: p.name
  }

  predicate DistinctPorts(ps: seq<Port>) {
    forall i, j :: 0 <= i < j < |ps| ==> ps[i].name != ps[j].name
  }

  predicate NodeOk(n: Node) {
    && DistinctPorts(n.inPorts) && DistinctPorts(n.outPorts)
    && (forall i, j :: 0 <= i < j < |n.meta| ==> n.meta[i].key != n.meta[j].key)
  }

  predicate NodesOk(ns: seq<Node>) {
    && (forall i :: 0 <= i < |ns| ==> NodeOk(ns[i]))
    && (forall i, j :: 0 <= i < j < |ns| ==> ns[i].name != ns[j].name)
  }

  predicate SameConn(c: Conn, d: Conn) {
    c.(pos := d.pos) == d
  }

  /** The connection joins existing nodes, and its ports are listed there. */
  predicate ConnOk(ns: seq<Node>, c: Conn) {
    && c.src < |ns| && c.dst < |ns|
    && c.srcPort in PortNames(ns[c.src].outPorts) && c.dstPort in PortNames(ns[c.dst].inPorts)
  }

  predicate ConnsOk(ns: seq<Node>, cs: seq<Conn>) {
    && (forall i :: 0 <= i < |cs| ==> ConnOk(ns, cs[i]))
    && (forall i, j :: 0 <= i < j < |cs| ==> !SameConn(cs[i], cs[j]))
  }

  /** Two exports take the same port, or one takes the whole array the other is part of. */
  predicate Overlap(a: Exported, b: Exported) {
    a.node == b.node && a.port == b.port && (a.idx == b.idx || a.idx == -1 || b.idx == -1)
  }

  predicate ExportedOk(n: nat, es: seq<Exported>) {
    && (forall i :: 0 <= i < |es| ==> es[i].node < n)
    && (forall i, j :: 0 <= i < j < |es| ==> es[i].name != es[j].name && !Overlap(es[i], es[j]))
  }

  predicate ExportsListed(ns: seq<Node>, ins: seq<Exported>, outs: seq<Exported>)
    requires ExportedOk(|ns|, ins) && ExportedOk(|ns|, outs)
  {
    && (forall i :: 0 <= i < |ins| ==> ins[i].port in PortNames(ns[ins[i].node].inPorts))
    && (forall i :: 0 <= i < |outs| ==> outs[i].port in PortNames(ns[outs[i].node].outPorts))
  }

  predicate DeclarationsOk(ds: seq<Declaration>) {
    && (forall i :: 0 <= i < |ds| ==> ds[i].name != "" && ds[i].metatype != "" && ds[i].contents != "")
    && (forall i, j :: 0 <= i < j < |ds| ==> ds[i].name != ds[j].name)
  }

  predicate OptionsOk(n: nat, os: seq<NodeOption>) {
    && (forall i :: 0 <= i < |os| ==> os[i].name != "" && os[i].option != "" && os[i].node < n)
    && (forall i, j :: 0 <= i < j < |os| ==> os[i].name != os[j].name)
  }

  predicate GraphOk(g: GraphData) {
    && NodesOk(g.nodes)
    && ConnsOk(g.nodes, g.conns)
    && ExportedOk(|g.nodes|, g.exportedIn) && ExportedOk(|g.nodes|, g.exportedOut)
    && ExportsListed(g.nodes, g.exportedIn, g.exportedOut)
    && DeclarationsOk(g.declarations)
    && OptionsOk(|g.nodes|, g.options)
  }

  /** Nodes only gain: no name changes, no port goes. */
  ghost predicate Extends(a: seq<Node>, b: seq<Node>) {
    && |a| <= |b|
    && forall i :: 0 <= i < |a| ==>
      && b[i].name == a[i].name
      && PortNames(a[i].inPorts) <= PortNames(b[i].inPorts)
      && PortNames(a[i].outPorts) <= PortNames(b[i].outPorts)
  }

  /** A graph stays in order when its nodes gain something. */
  lemma NodesGain(g: GraphData, ns: seq<Node>)
    requires GraphOk(g) && NodesOk(ns) && Extends(g.nodes, ns)
    ensures GraphOk(g.(nodes := ns))
  {
    forall i | 0 <= i < |g.conns|
      ensures ConnOk(ns, g.conns[i])
    {
      assert ConnOk(g.nodes, g.conns[i]);
    }
  }

  /** sol_vector_append with a port, unless a port of that name is there. */
  function WithPort(ps: seq<Port>, name: string, pos: Position): (r: seq<Port>)
    ensures DistinctPorts(ps) ==> DistinctPorts(r)
    ensures PortNames(r) == PortNames(ps) + {name}
  {
    if name in PortNames(ps) then ps
    else
      var r := ps + [Port(name, pos)];
      assert forall p :: p in r <==> p in ps || p == Port(name, pos);
      assert Port(name, pos) in r;
      r
  }

  // ---------------------------------------------------------------------------
  // What each function of the graph does
  // ---------------------------------------------------------------------------

  /** The first node of this name, or one past the last. */
  function FindNode(ns: seq<Node>, name: string): (i: nat)
    ensures i <= |ns| && (i < |ns| ==> ns[i].name == name) && forall j :: 0 <= j < i ==> ns[j].name != name
  {
    if ns == [] || ns[0].name == name then 0 else 1 + FindNode(ns[1..], name)
  }

  predicate HasNode(ns: seq<Node>, name: string) {
    exists i :: 0 <= i < |ns| && ns[i].name == name
  }

  /** A node of this name without its metadata and ports. */
  function NewNode(name: string, component: string, pos: Position): Node {
    Node(name, component, pos, [], [], [])
  }

  /** The name a node is stored under. */
  function StoredName(name: string, pos: Position): string {
    if name == "_" then AnonName(pos) else name
  }

  /**
   A name that is there already names the same node, whose component can be given once;
   "_" makes a new node each time, without a search.
   */
  function NodeAdded(ns: seq<Node>, name: string, component: string, pos: Position): (seq<Node>, Outcome) {
    var i := FindNode(ns, name);
    if name == "_" && component == "" then (ns, Einval)
    else if name == "_" || i == |ns| then (ns + [NewNode(StoredName(name, pos), component, pos)], Index(|ns|))
    else if component == "" then (ns, Index(i))
    else if ns[i].component != "" then (ns, Eexist)
    else (ns[i := ns[i].(component := component)], Index(i))
  }

  /** Node `n` with metadata added. */
  function WithMetas(ns: seq<Node>, n: nat, ms: seq<Meta>): (r: seq<Node>)
    requires n < |ns|
    ensures |r| == |ns|
  {
    ns[n := ns[n].(meta := ns[n].meta + ms)]
  }

  predicate HasKey(ms: seq<Meta>, key: string) {
    exists i :: 0 <= i < |ms| && ms[i].key == key
  }

  function MetaAdded(ns: seq<Node>, n: nat, m: Meta): (seq<Node>, Outcome) {
    if n >= |ns| then (ns, Einval)
    else if HasKey(ns[n].meta, m.key) then (ns, Eexist)
    else (WithMetas(ns, n, [m]), Index(0))
  }

  function InPortAdded(ns: seq<Node>, n: nat, name: string, pos: Position): (r: seq<Node>)
    ensures |r| == |ns|
  {
    if n < |ns| then ns[n := ns[n].(inPorts := WithPort(ns[n].inPorts, name, pos))] else ns
  }

  function OutPortAdded(ns: seq<Node>, n: nat, name: string, pos: Position): (r: seq<Node>)
    ensures |r| == |ns|
  {
    if n < |ns| then ns[n := ns[n].(outPorts := WithPort(ns[n].outPorts, name, pos))] else ns
  }

  predicate HasConn(cs: seq<Conn>, c: Conn) {
    exists i :: 0 <= i < |cs| && SameConn(cs[i], c)
  }

  function ConnAdded(cs: seq<Conn>, c: Conn): (seq<Conn>, Outcome) {
    if c.srcPort == "" || c.dstPort == "" then (cs, Einval)
    else if HasConn(cs, c) then (cs, Eexist)
    else (cs + [c], Index(|cs|))
  }

  predicate Clashes(a: Exported, b: Exported) {
    a.name == b.name || Overlap(a, b)
  }

  /** The first export that has the name or takes the port decides. */
  function FindClash(es: seq<Exported>, e: Exported): (i: nat)
    ensures i <= |es| && (i < |es| ==> Clashes(es[i], e)) && forall j :: 0 <= j < i ==> !Clashes(es[j], e)
  {
    if es == [] || Clashes(es[0], e) then 0 else 1 + FindClash(es[1..], e)
  }

  function ExportAdded(es: seq<Exported>, e: Exported): (r: (seq<Exported>, Outcome))
    ensures r.1 != Einval
  {
    var i := FindClash(es, e);
    if i == |es| then (es + [e], Index(0)) else (es, if es[i].name == e.name then Eexist else Eaddrinuse)
  }

  predicate HasDeclaration(ds: seq<Declaration>, name: string) {
    exists i :: 0 <= i < |ds| && ds[i].name == name
  }

  function DeclarationAdded(ds: seq<Declaration>, d: Declaration): (r: (seq<Declaration>, Outcome))
    ensures r.1 != Eaddrinuse
  {
    if d.name == "" || d.metatype == "" || d.contents == "" then (ds, Einval)
    else if HasDeclaration(ds, d.name) then (ds, Eexist)
    else (ds + [d], Index(|ds|))
  }

  predicate HasOption(os: seq<NodeOption>, name: string) {
    exists i :: 0 <= i < |os| && os[i].name == name
  }

  function OptionAdded(os: seq<NodeOption>, o: NodeOption): (seq<NodeOption>, Outcome) {
    if o.name == "" || o.option == "" then (os, Einval)
    else if HasOption(os, o.name) then (os, Eexist)
    else (os + [o], Index(|os|))
  }

  // ---------------------------------------------------------------------------
  // What they keep
  // ---------------------------------------------------------------------------

  /** Node `n` has the name and, where one is given, the component; nothing else changes but that it may be new. */
  predicate Placed(ns: seq<Node>, ms: seq<Node>, n: nat, name: string, component: string, pos: Position) {
    && |ns| <= |ms| && n < |ms| && ms[n].name == name
    && (|ms| > |ns| ==> n == |ns| && |ms| == n + 1 && ms[n] == NewNode(name, component, pos) && !HasNode(ns, name))
    && (forall i :: 0 <= i < |ns| ==> ms[i] == ns[i].(component := ms[i].component))
    && (forall i :: 0 <= i < |ns| && (i != n || component == "") ==> ms[i].component == ns[i].component)
    && (component != "" ==> ms[n].component == component)
    && (component != "" && n < |ns| ==> ns[n].component == "")
  }

  /** An anonymous node must get a name that is new. */
  lemma NodeAddedKeeps(g: GraphData, name: string, component: string, pos: Position)
    requires GraphOk(g) && (name == "_" ==> !HasNode(g.nodes, AnonName(pos)))
    ensures var (ms, r) := NodeAdded(g.nodes, name, component, pos);
      && GraphOk(g.(nodes := ms)) && Extends(g.nodes, ms)
      && (r.Index? ==> Placed(g.nodes, ms, r.i, StoredName(name, pos), component, pos))
  {
    hide AnonName, GraphOk, PortNames;
    assert NodesOk(g.nodes) by {
      assert GraphOk(g);
      GraphNodesOk(g);
    }
    NodesGain(g, NodeAdded(g.nodes, name, component, pos).0);
  }

  lemma GraphNodesOk(g: GraphData)
    requires GraphOk(g)
    ensures NodesOk(g.nodes)
  {
  }

  lemma MetaAddedKeeps(g: GraphData, n: nat, m: Meta)
    requires GraphOk(g)
    ensures GraphOk(g.(nodes := MetaAdded(g.nodes, n, m).0)) && Extends(g.nodes, MetaAdded(g.nodes, n, m).0)
  {
    hide GraphOk;
    GraphNodesOk(g);
    NodesGain(g, MetaAdded(g.nodes, n, m).0);
  }

  lemma PortAddedKeeps(g: GraphData, n: nat, name: string, pos: Position)
    requires GraphOk(g)
    ensures GraphOk(g.(nodes := InPortAdded(g.nodes, n, name, pos))) && Extends(g.nodes, InPortAdded(g.nodes, n, name, pos))
    ensures GraphOk(g.(nodes := OutPortAdded(g.nodes, n, name, pos))) && Extends(g.nodes, OutPortAdded(g.nodes, n, name, pos))
  {
    hide GraphOk;
    GraphNodesOk(g);
    NodesGain(g, InPortAdded(g.nodes, n, name, pos));
    NodesGain(g, OutPortAdded(g.nodes, n, name, pos));
  }

  lemma ConnAddedKeeps(g: GraphData, c: Conn)
    requires GraphOk(g) && ConnOk(g.nodes, c)
    ensures GraphOk(g.(conns := ConnAdded(g.conns, c).0))
  {
    hide NodesOk, ExportedOk, ExportsListed, DeclarationsOk, OptionsOk, ConnOk;
  }

  lemma ExportAddedKeeps(n: nat, es: seq<Exported>, e: Exported)
    requires ExportedOk(n, es) && e.node < n
    ensures ExportedOk(n, ExportAdded(es, e).0)
  {
  }

  lemma ExportedInKeeps(g: GraphData, e: Exported)
    requires GraphOk(g) && e.node < |g.nodes| && e.port in PortNames(g.nodes[e.node].inPorts)
    ensures GraphOk(g.(exportedIn := ExportAdded(g.exportedIn, e).0))
  {
    hide NodesOk, ConnsOk, DeclarationsOk, OptionsOk, ExportedOk, PortNames;
    ExportAddedKeeps(|g.nodes|, g.exportedIn, e);
  }

  lemma ExportedOutKeeps(g: GraphData, e: Exported)
    requires GraphOk(g) && e.node < |g.nodes| && e.port in PortNames(g.nodes[e.node].outPorts)
    ensures GraphOk(g.(exportedOut := ExportAdded(g.exportedOut, e).0))
  {
    hide NodesOk, ConnsOk, DeclarationsOk, OptionsOk, ExportedOk, PortNames;
    ExportAddedKeeps(|g.nodes|, g.exportedOut, e);
  }

  lemma DeclarationAddedKeeps(g: GraphData, d: Declaration)
    requires GraphOk(g)
    ensures GraphOk(g.(declarations := DeclarationAdded(g.declarations, d).0))
  {
    hide NodesOk, ConnsOk, ExportedOk, ExportsListed, OptionsOk;
  }

  lemma OptionAddedKeeps(g: GraphData, o: NodeOption)
    requires GraphOk(g) && o.node < |g.nodes|
    ensures GraphOk(g.(options := OptionAdded(g.options, o).0))
  {
    hide NodesOk, ConnsOk, ExportedOk, ExportsListed, DeclarationsOk;
  }

  // ---------------------------------------------------------------------------
  // The graph
  // ---------------------------------------------------------------------------

  const EMPTY := GraphData([], [], [], [], [], [])

  class Graph {
    var nodes: seq<Node>
    var conns: seq<Conn>
    var exportedIn: seq<Exported>
    var exportedOut: seq<Exported>
    var declarations: seq<Declaration>
    var options: seq<NodeOption>

    function Data(): GraphData
      reads this
    {
      GraphData(nodes, conns, exportedIn, exportedOut, declarations, options)
    }

    /** sol_fbp_graph_init. */
    constructor ()
      ensures Data() == EMPTY
    {
      nodes, conns, exportedIn, exportedOut, declarations, options := [], [], [], [], [], [];
    }

    /** sol_fbp_graph_add_node. */
    method AddNode(name: string, component: string, pos: Position) returns (r: Outcome)
      modifies this`nodes
      ensures (nodes, r) == NodeAdded(old(nodes), name, component, pos)
    {
      hide AnonName;
      if name == "_" {
        if component == "" {
          return Einval;
        }
      } else {
        var i := 0;
        while i < |nodes|
          invariant i <= |nodes| && nodes == old(nodes)
          invariant forall j :: 0 <= j < i ==> nodes[j].name != name
        {
          if nodes[i].name == name {
            if component != "" {
              if nodes[i].component != "" {
                return Eexist;
              }
              nodes := nodes[i := nodes[i].(component := component)];
            }
            return Index(i);
          }
          i := i + 1;
        }
      }
      nodes := nodes + [NewNode(StoredName(name, pos), component, pos)];
      return Index(|nodes| - 1);
    }

    /** sol_fbp_graph_add_meta. */
    method AddMeta(node: nat, key: string, value: string, pos: Position) returns (r: Outcome)
      modifies this`nodes
      ensures (nodes, r) == MetaAdded(old(nodes), node, Meta(key, value, pos))
    {
      if node >= |nodes| {
        return Einval;
      }
      var n := nodes[node];
      var i := 0;
      while i < |n.meta|
        invariant i <= |n.meta|
        invariant forall j :: 0 <= j < i ==> n.meta[j].key != key
      {
        if n.meta[i].key == key {
          return Eexist;
        }
        i := i + 1;
      }
      nodes := nodes[node := n.(meta := n.meta + [Meta(key, value, pos)])];
      return Index(0);
    }

    /** Looks a port up by name, as both functions below do. */
    method FindPort(ports: seq<Port>, name: string) returns (found: bool)
      ensures found == (name in PortNames(ports))
    {
      var i := 0;
      while i < |ports|
        invariant i <= |ports|
        invariant forall j :: 0 <= j < i ==> ports[j].name != name
      {
        if ports[i].name == name {
          return true;
        }
        i := i + 1;
      }
      return false;
    }

    /** sol_fbp_graph_add_in_port. */
    method AddInPort(node: nat, name: string, pos: Position) returns (r: Outcome)
      modifies this`nodes
      ensures r == if node < |old(nodes)| then Index(0) else Einval
      ensures nodes == InPortAdded(old(nodes), node, name, pos)
    {
      if node >= |nodes| {
        return Einval;
      }
      var n := nodes[node];
      var found := FindPort(n.inPorts, name);
      if !found {
        nodes := nodes[node := n.(inPorts := n.inPorts + [Port(name, pos)])];
      }
      return Index(0);
    }

    /** sol_fbp_graph_add_out_port. */
    method AddOutPort(node: nat, name: string, pos: Position) returns (r: Outcome)
      modifies this`nodes
      ensures r == if node < |old(nodes)| then Index(0) else Einval
      ensures nodes == OutPortAdded(old(nodes), node, name, pos)
    {
      if node >= |nodes| {
        return Einval;
      }
      var n := nodes[node];
      var found := FindPort(n.outPorts, name);
      if !found {
        nodes := nodes[node := n.(outPorts := n.outPorts + [Port(name, pos)])];
      }
      return Index(0);
    }

    /** sol_fbp_graph_add_conn. */
    method AddConn(c: Conn) returns (r: Outcome)
      modifies this`conns
      ensures (conns, r) == ConnAdded(old(conns), c)
    {
      if c.srcPort == "" || c.dstPort == "" {
        return Einval;
      }
      var i := 0;
      while i < |conns|
        invariant i <= |conns|
        invariant forall j :: 0 <= j < i ==> !SameConn(conns[j], c)
      {
        if SameConn(conns[i], c) {
          return Eexist;
        }
        i := i + 1;
      }
      conns := conns + [c];
      return Index(i);
    }

    /** The search that sol_fbp_graph_add_exported_in_port and its output twin share. */
    method FindExport(es: seq<Exported>, e: Exported) returns (r: Outcome)
      ensures r == ExportAdded(es, e).1
    {
      var at := 0;
      while at < |es|
        invariant at <= |es|
        invariant forall j :: 0 <= j < at ==> !Clashes(es[j], e)
      {
        if es[at].name == e.name {
          return Eexist;
        }
        if Overlap(es[at], e) {
          return Eaddrinuse;
        }
        at := at + 1;
      }
      return Index(0);
    }

    /** sol_fbp_graph_add_exported_in_port. */
    method AddExportedIn(e: Exported) returns (r: Outcome)
      modifies this`exportedIn
      ensures (exportedIn, r) == ExportAdded(old(exportedIn), e)
    {
      r := FindExport(exportedIn, e);
      if r.Index? {
        exportedIn := exportedIn + [e];
      }
    }

    /** sol_fbp_graph_add_exported_out_port. */
    method AddExportedOut(e: Exported) returns (r: Outcome)
      modifies this`exportedOut
      ensures (exportedOut, r) == ExportAdded(old(exportedOut), e)
    {
      r := FindExport(exportedOut, e);
      if r.Index? {
        exportedOut := exportedOut + [e];
      }
    }

    /** sol_fbp_graph_declare. */
    method Declare(d: Declaration) returns (r: Outcome)
      modifies this`declarations
      ensures (declarations, r) == DeclarationAdded(old(declarations), d)
    {
      if d.name == "" || d.metatype == "" || d.contents == "" {
        return Einval;
      }
      var i := 0;
      while i < |declarations|
        invariant i <= |declarations|
        invariant forall j :: 0 <= j < i ==> declarations[j].name != d.name
      {
        if declarations[i].name == d.name {
          return Eexist;
        }
        i := i + 1;
      }
      declarations := declarations + [d];
      return Index(i);
    }

    /** sol_fbp_graph_option. */
    method AddOption(o: NodeOption) returns (r: Outcome)
      modifies this`options
      ensures (options, r) == OptionAdded(old(options), o)
    {
      if o.name == "" || o.option == "" {
        return Einval;
      }
      var i := 0;
      while i < |options|
        invariant i <= |options|
        invariant forall j :: 0 <= j < i ==> options[j].name != o.name
      {
        if options[i].name == o.name {
          return Eexist;
        }
        i := i + 1;
      }
      options := options + [o];
      return Index(i);
    }
  }
}
