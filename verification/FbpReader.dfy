/**
 What an FBP text says, read off its tokens: for every statement of the language, the graph
 after it and the place where it ends, or the position that is reported.
 */
module FbpReader {
  import opened Decimals
  import opened FbpTokens
  import opened FbpGraph

  const INT_MAX := 0x7fff_ffff

  // ---------------------------------------------------------------------------
  // Port indexes
  // ---------------------------------------------------------------------------

  /** The number these digits write, or -1 when one is not a digit of the base. */
  function Number(s: string, octal: bool): (n: int)
    ensures n >= -1
  {
    if s == "" then 0
    else
      var n, c := Number(s[..|s| - 1], octal), s[|s| - 1];
      if n < 0 || !IsDigit(c) || (octal && c >= '8') then -1
      else (if octal then 8 * n else 10 * n) + (c - '0') as int
  }

  /**
   sol_str_slice_to_int on an integer token, over the -1 that stands for no index: a
   leading zero makes it octal, and what does not convert or fit leaves the -1.
   */
  function PortIndex(s: string): (i: int)
    ensures -1 <= i <= INT_MAX
  {
    if s == "" then -1
    else
      var n := Number(s, s[0] == '0');
      if n > INT_MAX then -1 else n
  }

  lemma {:induction false} NumberOfDecimal(n: nat)
    ensures Number(Decimal(n), false) == n
  {
    var s := Decimal(n);
    if n >= 10 {
      NumberOfDecimal(n / 10);
      assert s[..|s| - 1] == Decimal(n / 10);
    }
  }

  /** An index written in decimal without leading zeros is read as itself, or as no index when it is too large. */
  lemma PortIndexOfDecimal(n: nat)
    ensures PortIndex(Decimal(n)) == if n <= INT_MAX then n else -1
  {
    NumberOfDecimal(n);
    DecimalLeads(n);
    if n == 0 {
      assert Decimal(0) == "0" && Number("0", true) == 0;
    }
  }

  lemma {:induction false} NumberOfOctal(n: nat)
    ensures Number("0" + Octal(n), true) == n
  {
    var s := "0" + Octal(n);
    assert s[..1] == "0" && Number("0", true) == 0 && Number(s[..1], true) == 0;
    if n >= 8 {
      NumberOfOctal(n / 8);
      assert s[..|s| - 1] == "0" + Octal(n / 8);
    } else {
      assert s[..|s| - 1] == "0";
    }
  }

  /** After a zero the digits are octal. */
  lemma PortIndexOfOctal(n: nat)
    ensures PortIndex("0" + Octal(n)) == if n <= INT_MAX then n else -1
  {
    NumberOfOctal(n);
  }

  lemma {:induction false} NumberStops(s: string, i: nat)
    requires i < |s| && !('0' <= s[i] < '8')
    ensures Number(s, true) == -1
  {
    if i < |s| - 1 {
      NumberStops(s[..|s| - 1], i);
    }
  }

  /** An 8 or a 9 there makes it no index. */
  lemma PortIndexOfNone(s: string, i: nat)
    requires i < |s| && s[0] == '0' && !('0' <= s[i] < '8')
    ensures PortIndex(s) == -1
  {
    NumberStops(s, i);
  }

  // ---------------------------------------------------------------------------
  // Tokens
  // ---------------------------------------------------------------------------

  function KindAt(ts: seq<Token>, i: nat): TokenType {
    if i < |ts| then ts[i].kind else NoToken
  }

  /** Past the last token, as good as any position. */
  function PosAt(ts: seq<Token>, i: nat): Position {
    if i < |ts| then ts[i].pos else Position(1, 1)
  }

  function TextAt(input: string, ts: seq<Token>, i: nat): string {
    if i < |ts| then Text(input, ts[i]) else ""
  }

  /** What was read and the next token to read, or the position to report. */
  datatype Result<T> = Got(value: T, next: nat) | Fault(pos: Position)

  ghost predicate AtToken(ts: seq<Token>, p: Position) {
    exists k: nat :: p == PosAt(ts, k)
  }

  /** Reading goes forward, and a report is about a token. */
  ghost predicate Sound<T>(ts: seq<Token>, i: nat, r: Result<T>) {
    if r.Got? then i <= r.next <= |ts| else AtToken(ts, r.pos)
  }

  // ---------------------------------------------------------------------------
  // Names and ports
  // ---------------------------------------------------------------------------

  /** A fixed token, then a name. */
  function ReadName(input: string, ts: seq<Token>, i: nat, before: TokenType): (r: Result<string>)
    ensures Sound(ts, i, r) && (r.Got? ==> r.next == i + 2)
  {
    if KindAt(ts, i) != before then Fault(PosAt(ts, i))
    else if KindAt(ts, i + 1) != Identifier then Fault(PosAt(ts, i + 1))
    else Got(TextAt(input, ts, i + 1), i + 2)
  }

  /** "[3]", if it is there. */
  function ReadIndex(input: string, ts: seq<Token>, i: nat): (r: Result<int>)
    requires i <= |ts|
    ensures Sound(ts, i, r)
  {
    if KindAt(ts, i) != BracketOpen then Got(-1, i)
    else if KindAt(ts, i + 1) != Integer then Fault(PosAt(ts, i + 1))
    else if KindAt(ts, i + 2) != BracketClose then Fault(PosAt(ts, i + 2))
    else Got(PortIndex(TextAt(input, ts, i + 1)), i + 3)
  }

  datatype PortRef = PortRef(name: string, idx: int)

  /** A port and the index it may have. */
  function ReadPort(input: string, ts: seq<Token>, i: nat): (r: Result<PortRef>)
    ensures Sound(ts, i, r) && (r.Got? ==> i < r.next)
  {
    if KindAt(ts, i) != Identifier then Fault(PosAt(ts, i))
    else
      match ReadIndex(input, ts, i + 1)
      case Fault(pos) => Fault(pos)
      case Got(idx, next) => Got(PortRef(TextAt(input, ts, i), idx), next)
  }

  datatype Member = Member(node: string, member: string)

  /** "=node.member". */
  function ReadMember(input: string, ts: seq<Token>, i: nat): (r: Result<Member>)
    ensures Sound(ts, i, r) && (r.Got? ==> r.next == i + 4)
  {
    match ReadName(input, ts, i, Equal)
    case Fault(pos) => Fault(pos)
    case Got(node, j) =>
      match ReadName(input, ts, j, Dot)
      case Fault(pos) => Fault(pos)
      case Got(member, k) => Got(Member(node, member), k)
  }

  datatype Named<T> = Named(node: string, value: T)

  /** "=node.port:name" and "=node.port[3]:name"; the node is not placed yet. */
  function ReadExported(input: string, ts: seq<Token>, i: nat): (r: Result<Named<Exported>>)
    ensures Sound(ts, i, r) && (r.Got? ==> i < r.next && r.value.value.pos == PosAt(ts, r.next - 1))
  {
    match ReadMember(input, ts, i)
    case Fault(pos) => Fault(pos)
    case Got(m, j) =>
      match ReadIndex(input, ts, j)
      case Fault(pos) => Fault(pos)
      case Got(idx, k) =>
        match ReadName(input, ts, k, Colon)
        case Fault(pos) => Fault(pos)
        case Got(name, next) => Got(Named(m.node, Exported(0, m.member, idx, name, PosAt(ts, next - 1))), next)
  }

  /** "=name:metatype:contents". */
  function ReadDeclaration(input: string, ts: seq<Token>, i: nat): (r: Result<Declaration>)
    ensures Sound(ts, i, r) && (r.Got? ==> r.next == i + 6 && r.value.pos == PosAt(ts, i + 1))
  {
    match ReadName(input, ts, i, Equal)
    case Fault(pos) => Fault(pos)
    case Got(name, j) =>
      match ReadName(input, ts, j, Colon)
      case Fault(pos) => Fault(pos)
      case Got(metatype, k) =>
        match ReadName(input, ts, k, Colon)
        case Fault(pos) => Fault(pos)
        case Got(contents, next) => Got(Declaration(name, metatype, contents, PosAt(ts, i + 1)), next)
  }

  /** "=node.option:name"; the node is not placed yet. */
  function ReadNodeOption(input: string, ts: seq<Token>, i: nat): (r: Result<Named<NodeOption>>)
    ensures Sound(ts, i, r) && (r.Got? ==> r.next == i + 6 && r.value.value.pos == PosAt(ts, i + 1))
  {
    match ReadMember(input, ts, i)
    case Fault(pos) => Fault(pos)
    case Got(m, j) =>
      match ReadName(input, ts, j, Colon)
      case Fault(pos) => Fault(pos)
      case Got(name, next) => Got(Named(m.node, NodeOption(name, m.member, 0, PosAt(ts, i + 1))), next)
  }

  // ---------------------------------------------------------------------------
  // Nodes
  // ---------------------------------------------------------------------------

  /** A value, if there is one. */
  function ReadValue(input: string, ts: seq<Token>, i: nat): (r: Result<string>)
    requires i <= |ts|
    ensures Sound(ts, i, r)
  {
    if KindAt(ts, i) != Equal then Got("", i)
    else if KindAt(ts, i + 1) != Identifier && KindAt(ts, i + 1) != String then Fault(PosAt(ts, i + 1))
    else Got(TextAt(input, ts, i + 1), i + 2)
  }

  /** "key" or "key=value", after a comma unless it is the first. */
  function ReadPair(input: string, ts: seq<Token>, i: nat, first: bool): (r: Result<Meta>)
    ensures Sound(ts, i, r) && (r.Got? ==> i < r.next && AtToken(ts, r.value.pos))
  {
    var k := if first then i else i + 1;
    if !first && KindAt(ts, i) != Comma then Fault(PosAt(ts, i))
    else if KindAt(ts, k) != Identifier then Fault(PosAt(ts, k))
    else
      match ReadValue(input, ts, k + 1)
      case Fault(pos) => Fault(pos)
      case Got(value, next) => Got(Meta(TextAt(input, ts, k), value, PosAt(ts, k)), next)
  }

  /** The pairs up to the closing parenthesis, for node `n`. */
  function ReadPairs(input: string, ts: seq<Token>, i: nat, first: bool, ns: seq<Node>, n: nat): (r: (seq<Node>, Result<()>))
    requires i <= |ts|
    ensures Sound(ts, i, r.1) && |r.0| == |ns|
    decreases |ts| - i
  {
    if KindAt(ts, i) == ParenClose then (ns, Got((), i))
    else
      match ReadPair(input, ts, i, first)
      case Fault(pos) => (ns, Fault(pos))
      case Got(m, j) =>
        var (ms, o) := MetaAdded(ns, n, m);
        if o.Index? then ReadPairs(input, ts, j, false, ms, n) else (ms, Fault(m.pos))
  }

  /** ":key=value,...", if it is there. */
  function ReadMetas(input: string, ts: seq<Token>, i: nat, ns: seq<Node>, n: nat): (r: (seq<Node>, Result<()>))
    requires i <= |ts|
    ensures Sound(ts, i, r.1) && |r.0| == |ns|
  {
    if KindAt(ts, i) != Colon then (ns, Got((), i)) else ReadPairs(input, ts, i + 1, true, ns, n)
  }

  /** The node of a name, or a report at the name. */
  function Place(ns: seq<Node>, name: string, component: string, pos: Position, next: nat): (r: (seq<Node>, Result<nat>))
    ensures if r.1.Got? then r.1.next == next && r.1.value < |r.0| else r.1.pos == pos
  {
    var (ms, o) := NodeAdded(ns, name, component, pos);
    (ms, if o.Index? then Got(o.i, next) else Fault(pos))
  }

  /** The component, what follows it, and the closing parenthesis, for the name at `i`. */
  function ReadComponent(input: string, ts: seq<Token>, i: nat, ns: seq<Node>): (r: (seq<Node>, Result<nat>))
    ensures Sound(ts, i, r.1) && (r.1.Got? ==> i + 3 < r.1.next && r.1.value < |r.0|)
  {
    if KindAt(ts, i + 2) != Identifier then (ns, Fault(PosAt(ts, i + 2)))
    else
      var (ms, p) := Place(ns, TextAt(input, ts, i), TextAt(input, ts, i + 2), PosAt(ts, i), i + 3);
      if p.Fault? then (ms, p)
      else
        var (os, q) := ReadMetas(input, ts, i + 3, ms, p.value);
        if q.Fault? then (os, Fault(q.pos))
        else if KindAt(ts, q.next) != ParenClose then (os, Fault(PosAt(ts, q.next)))
        else (os, Got(p.value, q.next + 1))
  }

  /** "node", "node()" or "node(component:key=value,...)". */
  function ReadNode(input: string, ts: seq<Token>, i: nat, ns: seq<Node>): (r: (seq<Node>, Result<nat>))
    ensures Sound(ts, i, r.1) && (r.1.Got? ==> i < r.1.next && r.1.value < |r.0|)
  {
    if KindAt(ts, i) != Identifier then (ns, Fault(PosAt(ts, i)))
    else if KindAt(ts, i + 1) != ParenOpen then Place(ns, TextAt(input, ts, i), "", PosAt(ts, i), i + 1)
    else if KindAt(ts, i + 2) == ParenClose then Place(ns, TextAt(input, ts, i), "", PosAt(ts, i), i + 3)
    else ReadComponent(input, ts, i, ns)
  }

  // ---------------------------------------------------------------------------
  // Connections
  // ---------------------------------------------------------------------------

  /** A connection up to its arrow; its target is filled in later. */
  function ReadSource(input: string, ts: seq<Token>, i: nat, ns: seq<Node>, src: nat): (r: (seq<Node>, Result<Conn>))
    ensures Sound(ts, i, r.1) && (r.1.Got? ==> i + 1 < r.1.next && AtToken(ts, r.1.value.pos)) && |r.0| == |ns|
  {
    match ReadPort(input, ts, i)
    case Fault(pos) => (ns, Fault(pos))
    case Got(p, j) =>
      var ms := OutPortAdded(ns, src, p.name, PosAt(ts, j - 1));
      if KindAt(ts, j) != Arrow then (ms, Fault(PosAt(ts, j)))
      else (ms, Got(Conn(src, p.name, p.idx, 0, "", -1, PosAt(ts, j - 1)), j + 1))
  }

  /** A port between an arrow and a node; what is missing is reported at the token before. */
  function ReadTargetPort(input: string, ts: seq<Token>, i: nat): (r: Result<PortRef>)
    requires i > 0
    ensures Sound(ts, i, r) && (r.Got? ==> i < r.next)
  {
    if KindAt(ts, i) != Identifier then Fault(PosAt(ts, i - 1))
    else
      var r := ReadPort(input, ts, i);
      if r.Got? && KindAt(ts, r.next) != Identifier then Fault(PosAt(ts, r.next - 1)) else r
  }

  /** The rest of a connection. */
  function ReadTarget(input: string, ts: seq<Token>, i: nat, ns: seq<Node>, c: Conn): (r: (seq<Node>, Result<Conn>))
    requires i > 0
    ensures Sound(ts, i, r.1) && (r.1.Got? ==> i < r.1.next && r.1.value.dst < |r.0| && r.1.value.pos == c.pos)
  {
    match ReadTargetPort(input, ts, i)
    case Fault(pos) => (ns, Fault(pos))
    case Got(p, j) =>
      var (ms, q) := ReadNode(input, ts, j, ns);
      if q.Fault? then (ms, Fault(q.pos))
      else (InPortAdded(ms, q.value, p.name, PosAt(ts, j - 1)),
            Got(c.(dst := q.value, dstPort := p.name, dstIdx := p.idx), q.next))
  }

  /** One connection from node `src`; the next one goes on from its target. */
  function ReadConn(input: string, ts: seq<Token>, i: nat, g: GraphData, src: nat): (r: (GraphData, Result<nat>))
    ensures Sound(ts, i, r.1) && (r.1.Got? ==> i < r.1.next && r.1.value < |r.0.nodes|)
  {
    var (ms, p) := ReadSource(input, ts, i, g.nodes, src);
    if p.Fault? then (g.(nodes := ms), Fault(p.pos))
    else
      var (os, q) := ReadTarget(input, ts, p.next, ms, p.value);
      if q.Fault? then (g.(nodes := os), Fault(q.pos))
      else
        var (cs, o) := ConnAdded(g.conns, q.value);
        (g.(nodes := os, conns := cs), if o.Index? then Got(q.value.dst, q.next) else Fault(q.value.pos))
  }

  /** Connections as long as there is another port. */
  function ReadChain(input: string, ts: seq<Token>, i: nat, g: GraphData, src: nat): (r: (GraphData, Result<()>))
    requires i <= |ts|
    ensures Sound(ts, i, r.1)
    decreases |ts| - i
  {
    if KindAt(ts, i) != Identifier then (g, Got((), i))
    else
      var (h, p) := ReadConn(input, ts, i, g, src);
      if p.Fault? then (h, Fault(p.pos)) else ReadChain(input, ts, p.next, h, p.value)
  }

  predicate GoesOn(k: TokenType) {
    k == Identifier || k == StmtSeparator || k == Eof
  }

  /** A node, and any number of connections that go on from it. */
  function ReadConnections(input: string, ts: seq<Token>, i: nat, g: GraphData): (r: (GraphData, Result<()>))
    ensures Sound(ts, i, r.1) && (r.1.Got? ==> i < r.1.next)
  {
    var (ms, p) := ReadNode(input, ts, i, g.nodes);
    var h := g.(nodes := ms);
    if p.Fault? then (h, Fault(p.pos))
    else if !GoesOn(KindAt(ts, p.next)) then (h, Fault(PosAt(ts, p.next - 1)))
    else ReadChain(input, ts, p.next, h, p.value)
  }

  // ---------------------------------------------------------------------------
  // The other statements, and the whole text
  // ---------------------------------------------------------------------------

  /** INPORT=node.port:name. */
  function ReadInport(input: string, ts: seq<Token>, i: nat, g: GraphData): (r: (GraphData, Result<()>))
    requires i < |ts|
    ensures Sound(ts, i, r.1) && (r.1.Got? ==> i < r.1.next)
  {
    match ReadExported(input, ts, i + 1)
    case Fault(pos) => (g, Fault(pos))
    case Got(x, j) =>
      var (ms, p) := Place(g.nodes, x.node, "", PosAt(ts, j - 1), j);
      if p.Fault? then (g.(nodes := ms), Fault(p.pos))
      else
        var os := InPortAdded(ms, p.value, x.value.port, PosAt(ts, j - 1));
        var (es, o) := ExportAdded(g.exportedIn, x.value.(node := p.value));
        (g.(nodes := os, exportedIn := es), if o.Index? then Got((), j) else Fault(PosAt(ts, j - 1)))
  }

  /** OUTPORT=node.port:name. */
  function ReadOutport(input: string, ts: seq<Token>, i: nat, g: GraphData): (r: (GraphData, Result<()>))
    requires i < |ts|
    ensures Sound(ts, i, r.1) && (r.1.Got? ==> i < r.1.next)
  {
    match ReadExported(input, ts, i + 1)
    case Fault(pos) => (g, Fault(pos))
    case Got(x, j) =>
      var (ms, p) := Place(g.nodes, x.node, "", PosAt(ts, j - 1), j);
      if p.Fault? then (g.(nodes := ms), Fault(p.pos))
      else
        var os := OutPortAdded(ms, p.value, x.value.port, PosAt(ts, j - 1));
        var (es, o) := ExportAdded(g.exportedOut, x.value.(node := p.value));
        (g.(nodes := os, exportedOut := es), if o.Index? then Got((), j) else Fault(PosAt(ts, j - 1)))
  }

  /** DECLARE=name:metatype:contents. */
  function ReadDeclare(input: string, ts: seq<Token>, i: nat, g: GraphData): (r: (GraphData, Result<()>))
    requires i < |ts|
    ensures Sound(ts, i, r.1) && (r.1.Got? ==> i < r.1.next)
  {
    match ReadDeclaration(input, ts, i + 1)
    case Fault(pos) => (g, Fault(pos))
    case Got(d, j) =>
      var (ds, o) := DeclarationAdded(g.declarations, d);
      (g.(declarations := ds), if o.Index? then Got((), j) else Fault(d.pos))
  }

  /** OPTION=node.option:name. */
  function ReadOption(input: string, ts: seq<Token>, i: nat, g: GraphData): (r: (GraphData, Result<()>))
    requires i < |ts|
    ensures Sound(ts, i, r.1) && (r.1.Got? ==> i < r.1.next)
  {
    match ReadNodeOption(input, ts, i + 1)
    case Fault(pos) => (g, Fault(pos))
    case Got(x, j) =>
      var (ms, p) := Place(g.nodes, x.node, "", x.value.pos, j);
      if p.Fault? then (g.(nodes := ms), Fault(p.pos))
      else
        var (os, o) := OptionAdded(g.options, x.value.(node := p.value));
        (g.(nodes := ms, options := os), if o.Index? then Got((), j) else Fault(x.value.pos))
  }

  /** One statement, which is not the end of the text. */
  function ReadStmt(input: string, ts: seq<Token>, i: nat, g: GraphData): (r: (GraphData, Result<()>))
    requires i < |ts|
    ensures Sound(ts, i, r.1) && (r.1.Got? ==> i < r.1.next)
  {
    var k := KindAt(ts, i);
    if k == InportKeyword then ReadInport(input, ts, i, g)
    else if k == OutportKeyword then ReadOutport(input, ts, i, g)
    else if k == DeclareKeyword then ReadDeclare(input, ts, i, g)
    else if k == OptionKeyword then ReadOption(input, ts, i, g)
    else if k == Identifier then ReadConnections(input, ts, i, g)
    else if k == StmtSeparator then (g, Got((), i + 1))
    else (g, Fault(PosAt(ts, i)))
  }

  /** Statements up to the end of the text. */
  function ReadAll(input: string, ts: seq<Token>, i: nat, g: GraphData): (r: (GraphData, Result<()>))
    requires i <= |ts|
    ensures Sound(ts, i, r.1)
    decreases |ts| - i
  {
    if KindAt(ts, i) == Eof then (g, Got((), i))
    else if i == |ts| then (g, Fault(PosAt(ts, i)))
    else
      var (h, r) := ReadStmt(input, ts, i, g);
      if r.Fault? then (h, r) else ReadAll(input, ts, r.next, h)
  }

  /** The first node without a component, or one past the last. */
  function FindUntyped(ns: seq<Node>): (i: nat)
    ensures i <= |ns| && (i < |ns| ==> ns[i].component == "") && forall j :: 0 <= j < i ==> ns[j].component != ""
  {
    if ns == [] || ns[0].component == "" then 0 else 1 + FindUntyped(ns[1..])
  }

  datatype Verdict = Accepted | Rejected(pos: Position)

  /** The graph of a text, and whether the text is accepted. */
  function Interpret(input: string): (GraphData, Verdict) {
    var (g, r) := ReadAll(input, LexAll(input, DefaultState, 0), 0, EMPTY);
    var i := FindUntyped(g.nodes);
    (g, if r.Fault? then Rejected(r.pos) else if i < |g.nodes| then Rejected(g.nodes[i].pos) else Accepted)
  }
}
