/**
 Every graph that is read, also up to an error, is in order: no duplicates, no dangling
 index, ports listed where they are used, and names of anonymous nodes that are new.
 */
module FbpSafety {
  import opened Decimals
  import opened FbpTokens
  import opened FbpGraph
  import opened FbpReader

  // ---------------------------------------------------------------------------
  // Names and positions
  // ---------------------------------------------------------------------------

  ghost predicate PosOk(input: string, p: Position) {
    exists o :: 0 <= o <= |input| && p == PositionAt(input, o)
  }

  /** A name out of the text, or a generated one for a node whose "_" starts before `b`. */
  ghost predicate NameOk(input: string, name: string, b: nat) {
    || (Plain(name) && name != "_")
    || exists o :: 0 <= o < b && o <= |input| && name == AnonName(PositionAt(input, o))
  }

  ghost predicate NamesOk(input: string, ns: seq<Node>, b: nat) {
    forall i :: 0 <= i < |ns| ==> NameOk(input, ns[i].name, b) && PosOk(input, ns[i].pos)
  }

  lemma NamesOkGrow(input: string, ns: seq<Node>, a: nat, b: nat)
    requires NamesOk(input, ns, a) && a <= b
    ensures NamesOk(input, ns, b)
  {
    forall i | 0 <= i < |ns|
      ensures NameOk(input, ns[i].name, b)
    {
      assert NameOk(input, ns[i].name, a);
    }
  }

  lemma NamesOkKept(input: string, ns: seq<Node>, ms: seq<Node>, b: nat)
    requires NamesOk(input, ns, b) && |ms| == |ns|
    requires forall i :: 0 <= i < |ns| ==> ms[i].name == ns[i].name && ms[i].pos == ns[i].pos
    ensures NamesOk(input, ms, b)
  {
  }

  /** Only the node that was asked for may be new. */
  lemma NamesOkPlaced(input: string, ns: seq<Node>, ms: seq<Node>, a: nat, b: nat, n: nat, name: string, component: string, pos: Position)
    requires NamesOk(input, ns, a) && a <= b && Placed(ns, ms, n, name, component, pos)
    requires NameOk(input, name, b) && PosOk(input, pos)
    ensures NamesOk(input, ms, b)
  {
    NamesOkGrow(input, ns, a, b);
  }

  /** A generated name is new when all the others come from earlier in the text. */
  lemma AnonNameIsNew(input: string, ns: seq<Node>, at: nat)
    requires NamesOk(input, ns, at) && at <= |input|
    ensures !HasNode(ns, AnonName(PositionAt(input, at)))
  {
    var name := AnonName(PositionAt(input, at));
    assert name[0] == '#';
    forall i | 0 <= i < |ns|
      ensures ns[i].name != name
    {
      if o :| 0 <= o < at && ns[i].name == AnonName(PositionAt(input, o)) {
        PositionInjective(input, o, at);
        if ns[i].name == name {
          AnonNameInjective(PositionAt(input, o), PositionAt(input, at));
        }
      }
    }
  }

  // ---------------------------------------------------------------------------
  // Tokens
  // ---------------------------------------------------------------------------

  /** Whether token `i` comes after a colon, where an identifier may be anything. */
  predicate AfterColon(ts: seq<Token>, i: nat) {
    i > 0 && KindAt(ts, i - 1) == Colon
  }

  predicate PlainNames(input: string, ts: seq<Token>) {
    forall i :: 0 <= i < |ts| && ts[i].kind == Identifier && !AfterColon(ts, i) ==> Plain(Text(input, ts[i]))
  }

  /** Tokens that tile the text, with plain names. */
  predicate Lexical(input: string, ts: seq<Token>) {
    TokensOk(input, ts) && PlainNames(input, ts)
  }

  lemma TextIsLexical(input: string)
    ensures Lexical(input, LexAll(input, DefaultState, 0))
  {
    hide LexAll, FollowsAt, Plain, Text;
    var ts := LexAll(input, DefaultState, 0);
    LexAllTiles(input, DefaultState, 0);
    LexAllPlain(input, DefaultState, 0);
    forall i | 0 <= i < |ts|
      ensures TokenOk(input, ts, i)
    {
      assert EndBefore(ts, i) == EndFrom(ts, 0, i);
    }
    forall i | 0 <= i < |ts| && ts[i].kind == Identifier && !AfterColon(ts, i)
      ensures Plain(Text(input, ts[i]))
    {
      assert ExpectsPlain(DefaultState, ts, i);
    }
  }

  /** A token begins after the tokens before it, and its position is its own. */
  lemma TokenSpan(input: string, ts: seq<Token>, i: nat)
    requires Lexical(input, ts) && i < |ts|
    ensures EndBefore(ts, i) <= ts[i].start <= ts[i].end == EndBefore(ts, i + 1) && ts[i].end <= |input|
    ensures PosAt(ts, i) == PositionAt(input, ts[i].start)
    ensures ts[i].kind == Identifier && !AfterColon(ts, i) ==> Plain(TextAt(input, ts, i))
    ensures TextAt(input, ts, i) == input[ts[i].start..ts[i].end]
  {
    hide PositionAt, Lexeme, Plain, All;
    assert TokenOk(input, ts, i);
  }

  lemma {:induction false} EndGrows(input: string, ts: seq<Token>, i: nat, j: nat)
    requires Lexical(input, ts) && i <= j <= |ts|
    ensures EndBefore(ts, i) <= EndBefore(ts, j) <= |input|
    decreases j
  {
    hide Lexical;
    if j > 0 {
      TokenSpan(input, ts, j - 1);
      if i < j {
        EndGrows(input, ts, i, j - 1);
      }
    }
  }

  /** Every position that is reported is one of the text. */
  lemma TokenPosOk(input: string, ts: seq<Token>, p: Position)
    requires Lexical(input, ts) && AtToken(ts, p)
    ensures PosOk(input, p)
  {
    hide Lexical, PositionAt;
    var k: nat :| p == PosAt(ts, k);
    if k < |ts| {
      TokenSpan(input, ts, k);
    } else {
      assert PositionAt(input, 0) == Position(1, 1) by { StartsAtOne(input); }
    }
  }

  lemma StartsAtOne(input: string)
    ensures PositionAt(input, 0) == Position(1, 1)
  {
  }

  // ---------------------------------------------------------------------------
  // The graph while it is read
  // ---------------------------------------------------------------------------

  /** In order, with anonymous nodes from before offset `b`. */
  ghost predicate Fit(input: string, g: GraphData, b: nat) {
    GraphOk(g) && NamesOk(input, g.nodes, b)
  }

  /** Where anonymous nodes can come from: what is read so far, or anything after an error. */
  function Reach<T>(input: string, ts: seq<Token>, r: Result<T>): nat {
    if r.Got? && r.next <= |ts| then EndBefore(ts, r.next) else |input|
  }

  /** Still in order, and the next token, if there is one to read, does not come after a colon. */
  ghost predicate Leaves<T>(input: string, ts: seq<Token>, g: GraphData, h: GraphData, r: Result<T>) {
    && Fit(input, h, Reach(input, ts, r)) && Extends(g.nodes, h.nodes)
    && (r.Got? ==> !AfterColon(ts, r.next))
  }

  lemma ExtendsTwice(a: seq<Node>, b: seq<Node>, c: seq<Node>)
    requires Extends(a, b) && Extends(b, c)
    ensures Extends(a, c)
  {
  }

  lemma FitGrow(input: string, g: GraphData, a: nat, b: nat)
    requires Fit(input, g, a) && a <= b
    ensures Fit(input, g, b)
  {
    hide GraphOk, NamesOk;
    NamesOkGrow(input, g.nodes, a, b);
  }

  /** Nothing has changed. */
  lemma FitKept<T>(input: string, ts: seq<Token>, g: GraphData, i: nat, r: Result<T>)
    requires Lexical(input, ts) && i <= |ts| && Fit(input, g, EndBefore(ts, i))
    requires r.Got? ==> i <= r.next <= |ts| && !AfterColon(ts, r.next)
    ensures Leaves(input, ts, g, g, r)
  {
    hide Lexical, Fit;
    EndGrows(input, ts, i, |ts|);
    if r.Got? {
      EndGrows(input, ts, i, r.next);
    }
    FitGrow(input, g, EndBefore(ts, i), Reach(input, ts, r));
  }

  /** A node placed for a plain name; where it is anonymous, `at` is where its "_" stands. */
  lemma PlaceFits(input: string, g: GraphData, a: nat, b: nat, name: string, component: string, at: nat, next: nat)
    requires Fit(input, g, a) && a <= at <= |input| && at <= b && Plain(name) && (name == "_" && component != "" ==> at < b)
    ensures var pos := PositionAt(input, at); var (ms, p) := Place(g.nodes, name, component, pos, next);
      && Fit(input, g.(nodes := ms), b) && Extends(g.nodes, ms)
      && (p.Got? ==> Placed(g.nodes, ms, p.value, StoredName(name, pos), component, pos))
  {
    hide GraphOk, NamesOk, AnonName, PositionAt, Extends, NodeAdded, Placed, NameOk, Plain;
    var pos := PositionAt(input, at);
    NamesOkGrow(input, g.nodes, a, at);
    if name == "_" {
      AnonNameIsNew(input, g.nodes, at);
    }
    NodeAddedKeeps(g, name, component, pos);
    var (ms, r) := NodeAdded(g.nodes, name, component, pos);
    if r.Index? {
      PlacedName(input, name, component, at, b, g.nodes);
      NamesOkPlaced(input, g.nodes, ms, a, b, r.i, StoredName(name, pos), component, pos);
    } else {
      NotPlaced(g.nodes, name, component, pos);
      NamesOkGrow(input, g.nodes, a, b);
    }
  }

  lemma PlacedName(input: string, name: string, component: string, at: nat, b: nat, ns: seq<Node>)
    requires at <= |input| && Plain(name) && (name == "_" && component != "" ==> at < b)
    requires NodeAdded(ns, name, component, PositionAt(input, at)).1.Index?
    ensures NameOk(input, StoredName(name, PositionAt(input, at)), b) && PosOk(input, PositionAt(input, at))
  {
    hide PositionAt, AnonName;
  }

  lemma NotPlaced(ns: seq<Node>, name: string, component: string, pos: Position)
    requires !NodeAdded(ns, name, component, pos).1.Index?
    ensures NodeAdded(ns, name, component, pos).0 == ns
  {
    hide AnonName;
  }

  /** A port is added, where an anonymous node changes nothing. */
  lemma PortFits(input: string, g: GraphData, b: nat, n: nat, name: string, pos: Position)
    requires Fit(input, g, b)
    ensures Fit(input, g.(nodes := InPortAdded(g.nodes, n, name, pos)), b)
    ensures Fit(input, g.(nodes := OutPortAdded(g.nodes, n, name, pos)), b)
    ensures Extends(g.nodes, InPortAdded(g.nodes, n, name, pos)) && Extends(g.nodes, OutPortAdded(g.nodes, n, name, pos))
    ensures n < |g.nodes| ==> name in PortNames(InPortAdded(g.nodes, n, name, pos)[n].inPorts)
    ensures n < |g.nodes| ==> name in PortNames(OutPortAdded(g.nodes, n, name, pos)[n].outPorts)
  {
    hide GraphOk, NamesOk, PortNames, Extends;
    PortAddedKeeps(g, n, name, pos);
    NamesOkKept(input, g.nodes, InPortAdded(g.nodes, n, name, pos), b);
    NamesOkKept(input, g.nodes, OutPortAdded(g.nodes, n, name, pos), b);
  }

  lemma MetaFits(input: string, g: GraphData, b: nat, n: nat, m: Meta)
    requires Fit(input, g, b)
    ensures Fit(input, g.(nodes := MetaAdded(g.nodes, n, m).0), b) && Extends(g.nodes, MetaAdded(g.nodes, n, m).0)
  {
    hide GraphOk, NamesOk, Extends;
    MetaAddedKeeps(g, n, m);
    NamesOkKept(input, g.nodes, MetaAdded(g.nodes, n, m).0, b);
  }

  lemma {:induction false} PairsFit(input: string, ts: seq<Token>, i: nat, first: bool, g: GraphData, n: nat, b: nat)
    requires Fit(input, g, b) && i <= |ts|
    ensures var ms := ReadPairs(input, ts, i, first, g.nodes, n).0; Fit(input, g.(nodes := ms), b) && Extends(g.nodes, ms)
    decreases |ts| - i
  {
    hide Fit, Extends, MetaAdded, ReadPair;
    var r := ReadPair(input, ts, i, first);
    ExtendsSelf(g.nodes);
    if KindAt(ts, i) != ParenClose && r.Got? {
      var (ms, o) := MetaAdded(g.nodes, n, r.value);
      MetaFits(input, g, b, n, r.value);
      if o.Index? {
        PairsFit(input, ts, r.next, false, g.(nodes := ms), n, b);
        ExtendsTwice(g.nodes, ms, ReadPairs(input, ts, r.next, false, ms, n).0);
      }
    }
  }

  lemma ExtendsSelf(ns: seq<Node>)
    ensures Extends(ns, ns)
  {
  }

  // ---------------------------------------------------------------------------
  // Statement by statement
  // ---------------------------------------------------------------------------

  /** The name at `i` is placed; anonymous nodes come from before the token after it. */
  lemma PlaceAtFits(input: string, ts: seq<Token>, i: nat, g: GraphData, component: string, next: nat)
    requires Lexical(input, ts) && i < |ts| && KindAt(ts, i) == Identifier && !AfterColon(ts, i)
    requires Fit(input, g, EndBefore(ts, i))
    ensures var (ms, p) := Place(g.nodes, TextAt(input, ts, i), component, PosAt(ts, i), next);
      && Fit(input, g.(nodes := ms), EndBefore(ts, i + 1)) && Extends(g.nodes, ms)
      && (p.Got? ==> Placed(g.nodes, ms, p.value, StoredName(TextAt(input, ts, i), PosAt(ts, i)), component, PosAt(ts, i)))
  {
    hide Lexical, Fit, Place, Extends, Placed, PositionAt, AnonName;
    TokenSpan(input, ts, i);
    PlaceFits(input, g, EndBefore(ts, i), EndBefore(ts, i + 1), TextAt(input, ts, i), component, ts[i].start, next);
  }

  lemma NodeFits(input: string, ts: seq<Token>, i: nat, g: GraphData)
    requires Lexical(input, ts) && i <= |ts| && Fit(input, g, EndBefore(ts, i)) && !AfterColon(ts, i)
    ensures var (ms, p) := ReadNode(input, ts, i, g.nodes); Leaves(input, ts, g, g.(nodes := ms), p)
  {
    hide Lexical, Fit, Place, ReadComponent, Extends, Placed, AnonName;
    var (ms, p) := ReadNode(input, ts, i, g.nodes);
    if KindAt(ts, i) != Identifier {
      FitKept(input, ts, g, i, p);
    } else if KindAt(ts, i + 1) != ParenOpen || KindAt(ts, i + 2) == ParenClose {
      PlaceAtFits(input, ts, i, g, "", if KindAt(ts, i + 1) != ParenOpen then i + 1 else i + 3);
      LaterFits(input, ts, g.(nodes := ms), i + 1, p);
    } else {
      ComponentFits(input, ts, i, g);
    }
  }

  /** What fits somewhere fits later. */
  lemma LaterFits<T>(input: string, ts: seq<Token>, g: GraphData, i: nat, r: Result<T>)
    requires Lexical(input, ts) && i <= |ts| && Fit(input, g, EndBefore(ts, i)) && (r.Got? ==> i <= r.next <= |ts|)
    ensures Fit(input, g, Reach(input, ts, r))
  {
    hide Lexical, Fit;
    EndGrows(input, ts, i, |ts|);
    if r.Got? {
      EndGrows(input, ts, i, r.next);
    }
    FitGrow(input, g, EndBefore(ts, i), Reach(input, ts, r));
  }

  lemma ComponentFits(input: string, ts: seq<Token>, i: nat, g: GraphData)
    requires Lexical(input, ts) && i < |ts| && Fit(input, g, EndBefore(ts, i)) && !AfterColon(ts, i)
    requires KindAt(ts, i) == Identifier
    ensures var (ms, p) := ReadComponent(input, ts, i, g.nodes); Leaves(input, ts, g, g.(nodes := ms), p)
  {
    hide Lexical, Fit, Place, Extends, Placed, AnonName, ReadPairs;
    var (os, r) := ReadComponent(input, ts, i, g.nodes);
    if KindAt(ts, i + 2) != Identifier {
      FitKept(input, ts, g, i, r);
    } else {
      var (ms, p) := Place(g.nodes, TextAt(input, ts, i), TextAt(input, ts, i + 2), PosAt(ts, i), i + 3);
      PlaceAtFits(input, ts, i, g, TextAt(input, ts, i + 2), i + 3);
      if p.Got? && KindAt(ts, i + 3) == Colon {
        PairsFit(input, ts, i + 4, true, g.(nodes := ms), p.value, EndBefore(ts, i + 1));
        ExtendsTwice(g.nodes, ms, os);
      }
      LaterFits(input, ts, g.(nodes := os), i + 1, r);
    }
  }

  lemma SourceFits(input: string, ts: seq<Token>, i: nat, g: GraphData, src: nat)
    requires Lexical(input, ts) && i <= |ts| && Fit(input, g, EndBefore(ts, i)) && src < |g.nodes|
    ensures var (ms, p) := ReadSource(input, ts, i, g.nodes, src);
      && Leaves(input, ts, g, g.(nodes := ms), p)
      && (p.Got? ==> p.value.src == src && p.value.srcPort in PortNames(ms[src].outPorts))
  {
    hide Lexical, Fit, ReadPort, Extends, OutPortAdded, PortNames;
    var (ms, p) := ReadSource(input, ts, i, g.nodes, src);
    var r := ReadPort(input, ts, i);
    if r.Fault? {
      FitKept(input, ts, g, i, p);
    } else {
      PortFits(input, g, EndBefore(ts, i), src, r.value.name, PosAt(ts, r.next - 1));
      LaterFits(input, ts, g.(nodes := ms), i, p);
    }
  }

  lemma TargetFits(input: string, ts: seq<Token>, i: nat, g: GraphData, c: Conn)
    requires Lexical(input, ts) && 0 < i <= |ts| && Fit(input, g, EndBefore(ts, i))
    ensures var (ms, p) := ReadTarget(input, ts, i, g.nodes, c);
      && Leaves(input, ts, g, g.(nodes := ms), p)
      && (p.Got? ==> p.value == c.(dst := p.value.dst, dstPort := p.value.dstPort, dstIdx := p.value.dstIdx))
      && (p.Got? ==> p.value.dstPort in PortNames(ms[p.value.dst].inPorts))
  {
    hide Lexical, Fit, ReadTargetPort, ReadNode, Extends, InPortAdded, PortNames;
    var (os, p) := ReadTarget(input, ts, i, g.nodes, c);
    var r := ReadTargetPort(input, ts, i);
    if r.Fault? {
      FitKept(input, ts, g, i, p);
    } else {
      PortEnds(input, ts, i);
      FitKept(input, ts, g, i, r);
      NodeFits(input, ts, r.next, g);
      var (ms, q) := ReadNode(input, ts, r.next, g.nodes);
      if q.Got? {
        PortFits(input, g.(nodes := ms), EndBefore(ts, q.next), q.value, r.value.name, PosAt(ts, r.next - 1));
        ExtendsTwice(g.nodes, ms, os);
      }
    }
  }

  /** A port does not end in a colon. */
  lemma PortEnds(input: string, ts: seq<Token>, i: nat)
    requires i > 0 && ReadTargetPort(input, ts, i).Got?
    ensures !AfterColon(ts, ReadTargetPort(input, ts, i).next)
  {
    hide PortIndex;
  }

  lemma ConnFits(input: string, ts: seq<Token>, i: nat, g: GraphData, src: nat)
    requires Lexical(input, ts) && i <= |ts| && Fit(input, g, EndBefore(ts, i)) && src < |g.nodes|
    ensures var (h, p) := ReadConn(input, ts, i, g, src); Leaves(input, ts, g, h, p)
  {
    hide Lexical, ReadSource, ReadTarget, ConnAdded, GraphOk, NamesOk, PortNames;
    var (ms, p) := ReadSource(input, ts, i, g.nodes, src);
    SourceFits(input, ts, i, g, src);
    if p.Got? {
      var (os, q) := ReadTarget(input, ts, p.next, ms, p.value);
      TargetFits(input, ts, p.next, g.(nodes := ms), p.value);
      ExtendsTwice(g.nodes, ms, os);
      if q.Got? {
        assert ConnOk(os, q.value);
        ConnAddedKeeps(g.(nodes := os), q.value);
        EndGrows(input, ts, q.next, |ts|);
        NamesOkGrow(input, os, EndBefore(ts, q.next), |input|);
      }
    }
  }

  lemma {:induction false} ChainFits(input: string, ts: seq<Token>, i: nat, g: GraphData, src: nat)
    requires Lexical(input, ts) && i <= |ts| && Fit(input, g, EndBefore(ts, i)) && src < |g.nodes| && !AfterColon(ts, i)
    ensures var (h, p) := ReadChain(input, ts, i, g, src); Leaves(input, ts, g, h, p)
    decreases |ts| - i
  {
    hide Lexical, Fit, ReadConn, Extends;
    var (h, p) := ReadConn(input, ts, i, g, src);
    if KindAt(ts, i) != Identifier {
      FitKept(input, ts, g, i, ReadChain(input, ts, i, g, src).1);
      ExtendsSelf(g.nodes);
    } else {
      ConnFits(input, ts, i, g, src);
      if p.Got? {
        ChainFits(input, ts, p.next, h, p.value);
        ExtendsTwice(g.nodes, h.nodes, ReadChain(input, ts, p.next, h, p.value).0.nodes);
      }
    }
  }

  lemma ConnectionsFit(input: string, ts: seq<Token>, i: nat, g: GraphData)
    requires Lexical(input, ts) && i <= |ts| && Fit(input, g, EndBefore(ts, i)) && !AfterColon(ts, i)
    ensures var (h, p) := ReadConnections(input, ts, i, g); Leaves(input, ts, g, h, p)
  {
    hide Lexical, Fit, ReadNode, ReadChain, Extends;
    var (ms, p) := ReadNode(input, ts, i, g.nodes);
    var h := g.(nodes := ms);
    NodeFits(input, ts, i, g);
    if p.Got? {
      if GoesOn(KindAt(ts, p.next)) {
        ChainFits(input, ts, p.next, h, p.value);
        ExtendsTwice(g.nodes, ms, ReadChain(input, ts, p.next, h, p.value).0.nodes);
      } else {
        LaterFits(input, ts, h, p.next, ReadConnections(input, ts, i, g).1);
      }
    }
  }

  /** A node that is placed for an export or an option, whose name is plain. */
  lemma PlaceNamedFits(input: string, ts: seq<Token>, i: nat, g: GraphData, name: string, k: nat, next: nat)
    requires Lexical(input, ts) && i <= k < |ts| && Fit(input, g, EndBefore(ts, i)) && Plain(name)
    ensures var (ms, p) := Place(g.nodes, name, "", PosAt(ts, k), next);
      && Fit(input, g.(nodes := ms), EndBefore(ts, k + 1)) && Extends(g.nodes, ms)
      && (p.Got? ==> Placed(g.nodes, ms, p.value, StoredName(name, PosAt(ts, k)), "", PosAt(ts, k)))
  {
    hide Lexical, Fit, Place, Extends, Placed, PositionAt, AnonName, Plain;
    TokenSpan(input, ts, k);
    EndGrows(input, ts, i, k);
    PlaceFits(input, g, EndBefore(ts, i), EndBefore(ts, k + 1), name, "", ts[k].start, next);
  }

  lemma ExportedNodePlain(input: string, ts: seq<Token>, i: nat)
    requires Lexical(input, ts) && ReadExported(input, ts, i).Got?
    ensures Plain(ReadExported(input, ts, i).value.node)
    ensures !AfterColon(ts, ReadExported(input, ts, i).next) && i + 1 < ReadExported(input, ts, i).next
  {
    hide Lexical, Text, PortIndex, Plain;
    TokenSpan(input, ts, i + 1);
  }

  lemma InportFits(input: string, ts: seq<Token>, i: nat, g: GraphData)
    requires Lexical(input, ts) && i < |ts| && Fit(input, g, EndBefore(ts, i))
    ensures var (h, p) := ReadInport(input, ts, i, g); Leaves(input, ts, g, h, p)
  {
    hide Lexical, ReadExported, Place, ExportAdded, Extends, InPortAdded, GraphOk, NamesOk, Placed, PortNames, AnonName, Plain;
    var (h, r) := ReadInport(input, ts, i, g);
    var x := ReadExported(input, ts, i + 1);
    if x.Fault? {
      FitKept(input, ts, g, i, r);
    } else {
      var k, e := x.next - 1, x.value.value;
      var (ms, p) := Place(g.nodes, x.value.node, "", PosAt(ts, k), x.next);
      ExportedNodePlain(input, ts, i + 1);
      PlaceNamedFits(input, ts, i, g, x.value.node, k, x.next);
      LaterFits(input, ts, g.(nodes := ms), x.next, r);
      if p.Got? {
        var os := InPortAdded(ms, p.value, e.port, PosAt(ts, k));
        PortFits(input, g.(nodes := ms), Reach(input, ts, r), p.value, e.port, PosAt(ts, k));
        ExportedInKeeps(g.(nodes := os), e.(node := p.value));
        ExtendsTwice(g.nodes, ms, os);
      }
    }
  }

  lemma OutportFits(input: string, ts: seq<Token>, i: nat, g: GraphData)
    requires Lexical(input, ts) && i < |ts| && Fit(input, g, EndBefore(ts, i))
    ensures var (h, p) := ReadOutport(input, ts, i, g); Leaves(input, ts, g, h, p)
  {
    hide Lexical, ReadExported, Place, ExportAdded, Extends, OutPortAdded, GraphOk, NamesOk, Placed, PortNames, AnonName, Plain;
    var (h, r) := ReadOutport(input, ts, i, g);
    var x := ReadExported(input, ts, i + 1);
    if x.Fault? {
      FitKept(input, ts, g, i, r);
    } else {
      var k, e := x.next - 1, x.value.value;
      var (ms, p) := Place(g.nodes, x.value.node, "", PosAt(ts, k), x.next);
      ExportedNodePlain(input, ts, i + 1);
      PlaceNamedFits(input, ts, i, g, x.value.node, k, x.next);
      LaterFits(input, ts, g.(nodes := ms), x.next, r);
      if p.Got? {
        var os := OutPortAdded(ms, p.value, e.port, PosAt(ts, k));
        PortFits(input, g.(nodes := ms), Reach(input, ts, r), p.value, e.port, PosAt(ts, k));
        ExportedOutKeeps(g.(nodes := os), e.(node := p.value));
        ExtendsTwice(g.nodes, ms, os);
      }
    }
  }

  lemma DeclareFits(input: string, ts: seq<Token>, i: nat, g: GraphData)
    requires Lexical(input, ts) && i < |ts| && Fit(input, g, EndBefore(ts, i))
    ensures var (h, p) := ReadDeclare(input, ts, i, g); Leaves(input, ts, g, h, p)
  {
    hide Lexical, DeclarationAdded, Extends, GraphOk, NamesOk, Text;
    var (h, r) := ReadDeclare(input, ts, i, g);
    ExtendsSelf(g.nodes);
    LaterFits(input, ts, g, i, r);
    var d := ReadDeclaration(input, ts, i + 1);
    if d.Got? {
      DeclarationAddedKeeps(g, d.value);
    }
  }

  lemma OptionNodePlain(input: string, ts: seq<Token>, i: nat)
    requires Lexical(input, ts) && ReadNodeOption(input, ts, i).Got?
    ensures Plain(ReadNodeOption(input, ts, i).value.node) && !AfterColon(ts, i + 6)
  {
    hide Lexical, Text, Plain;
    TokenSpan(input, ts, i + 1);
  }

  lemma OptionFits(input: string, ts: seq<Token>, i: nat, g: GraphData)
    requires Lexical(input, ts) && i < |ts| && Fit(input, g, EndBefore(ts, i))
    ensures var (h, p) := ReadOption(input, ts, i, g); Leaves(input, ts, g, h, p)
  {
    hide Lexical, ReadNodeOption, Place, OptionAdded, Extends, GraphOk, NamesOk, Placed, AnonName, Plain;
    var (h, r) := ReadOption(input, ts, i, g);
    var x := ReadNodeOption(input, ts, i + 1);
    if x.Fault? {
      FitKept(input, ts, g, i, r);
    } else {
      var o := x.value.value;
      var (ms, p) := Place(g.nodes, x.value.node, "", PosAt(ts, i + 2), x.next);
      OptionNodePlain(input, ts, i + 1);
      PlaceNamedFits(input, ts, i, g, x.value.node, i + 2, x.next);
      LaterFits(input, ts, g.(nodes := ms), i + 3, r);
      if p.Got? {
        OptionAddedKeeps(g.(nodes := ms), o.(node := p.value));
      }
    }
  }

  lemma StmtFits(input: string, ts: seq<Token>, i: nat, g: GraphData)
    requires Lexical(input, ts) && i < |ts| && Fit(input, g, EndBefore(ts, i)) && !AfterColon(ts, i)
    ensures var (h, p) := ReadStmt(input, ts, i, g); Leaves(input, ts, g, h, p)
  {
    hide Lexical, Fit, ReadInport, ReadOutport, ReadDeclare, ReadOption, ReadConnections, Leaves;
    var k := KindAt(ts, i);
    if k == InportKeyword {
      InportFits(input, ts, i, g);
    } else if k == OutportKeyword {
      OutportFits(input, ts, i, g);
    } else if k == DeclareKeyword {
      DeclareFits(input, ts, i, g);
    } else if k == OptionKeyword {
      OptionFits(input, ts, i, g);
    } else if k == Identifier {
      ConnectionsFit(input, ts, i, g);
    } else {
      FitKept(input, ts, g, i, ReadStmt(input, ts, i, g).1);
    }
  }

  /** The graph is in order wherever reading ends. */
  lemma {:induction false} AllFits(input: string, ts: seq<Token>, i: nat, g: GraphData)
    requires Lexical(input, ts) && i <= |ts| && Fit(input, g, EndBefore(ts, i)) && !AfterColon(ts, i)
    ensures Fit(input, ReadAll(input, ts, i, g).0, |input|)
    decreases |ts| - i
  {
    hide Lexical, Fit, ReadStmt, Extends;
    if i == |ts| || KindAt(ts, i) == Eof {
      EndGrows(input, ts, i, |ts|);
      FitGrow(input, g, EndBefore(ts, i), |input|);
    } else {
      var (h, r) := ReadStmt(input, ts, i, g);
      StmtFits(input, ts, i, g);
      if r.Got? {
        AllFits(input, ts, r.next, h);
      }
    }
  }

  /** Of every text, accepted or not. */
  lemma GraphIsFit(input: string)
    ensures var (g, v) := Interpret(input);
      GraphOk(g) && NamesOk(input, g.nodes, |input|) && (v.Rejected? ==> PosOk(input, v.pos))
  {
    hide LexAll, Lexical, ReadAll, GraphOk, NamesOk, PosOk;
    var ts := LexAll(input, DefaultState, 0);
    TextIsLexical(input);
    assert Fit(input, EMPTY, 0) by { EmptyFits(input); }
    AllFits(input, ts, 0, EMPTY);
    var (g, r) := ReadAll(input, ts, 0, EMPTY);
    if r.Fault? {
      TokenPosOk(input, ts, r.pos);
    } else if FindUntyped(g.nodes) < |g.nodes| {
      NodePosOk(input, g.nodes, FindUntyped(g.nodes));
    }
  }

  lemma NodePosOk(input: string, ns: seq<Node>, i: nat)
    requires NamesOk(input, ns, |input|) && i < |ns|
    ensures PosOk(input, ns[i].pos)
  {
  }

  lemma EmptyFits(input: string)
    ensures Fit(input, EMPTY, 0)
  {
  }
}
