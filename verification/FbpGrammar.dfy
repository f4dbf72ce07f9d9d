/**
 The language of FBP texts: its statements, the tokens that spell them, and which lists of
 statements say nothing twice and leave no node without a component.
 */
module FbpGrammar {
  import opened Wrappers
  import opened FbpTokens
  import opened FbpGraph
  import opened FbpReader

  // ---------------------------------------------------------------------------
  // Statements
  // ---------------------------------------------------------------------------

  /** "port" or "port[3]". */
  datatype PortText = PortText(name: string, index: Option<string>)

  /** "key" or "key=value". */
  datatype PairText = PairText(key: string, value: Option<string>)

  /** "node", "node()", "node(component)" or "node(component:key=value,...)". */
  datatype NodeText = Bare(name: string) | Empty(name: string) | Full(name: string, component: string, pairs: Option<seq<PairText>>)

  /** "OUT -> IN node". */
  datatype LinkText = LinkText(source: PortText, target: PortText, node: NodeText)

  /** A statement, or the separator between two. */
  datatype Stmt =
    | Break
    | Inport(node: string, port: PortText, name: string)
    | Outport(node: string, port: PortText, name: string)
    | Declare(name: string, metatype: string, contents: string)
    | Expose(node: string, option: string, name: string)
    | Chain(first: NodeText, links: seq<LinkText>)

  // ---------------------------------------------------------------------------
  // How many tokens they take
  // ---------------------------------------------------------------------------

  function IndexSize(index: Option<string>): nat {
    if index.Some? then 3 else 0
  }

  function PortSize(p: PortText): nat {
    1 + IndexSize(p.index)
  }

  function PairSize(p: PairText): nat {
    if p.value.Some? then 3 else 1
  }

  /** With a comma before each pair, but for the first of all. */
  function PairsSize(ps: seq<PairText>, first: bool): nat {
    if ps == [] then 0 else (if first then 0 else 1) + PairSize(ps[0]) + PairsSize(ps[1..], false)
  }

  function NodeSize(n: NodeText): nat {
    match n
    case Bare(_) => 1
    case Empty(_) => 3
    case Full(_, _, None) => 4
    case Full(_, _, Some(ps)) => 5 + PairsSize(ps, true)
  }

  /** Where the node of a link begins. */
  function TargetSize(l: LinkText): nat {
    PortSize(l.source) + 1 + PortSize(l.target)
  }

  function LinkSize(l: LinkText): nat {
    TargetSize(l) + NodeSize(l.node)
  }

  function LinksSize(ls: seq<LinkText>): nat {
    if ls == [] then 0 else LinkSize(ls[0]) + LinksSize(ls[1..])
  }

  function StmtSize(s: Stmt): nat {
    match s
    case Break => 1
    case Inport(_, port, _) => 6 + PortSize(port)
    case Outport(_, port, _) => 6 + PortSize(port)
    case Declare(_, _, _) => 7
    case Expose(_, _, _) => 7
    case Chain(first, links) => NodeSize(first) + LinksSize(links)
  }

  // ---------------------------------------------------------------------------
  // Which tokens spell them
  // ---------------------------------------------------------------------------

  predicate Is(ts: seq<Token>, i: nat, k: TokenType) {
    KindAt(ts, i) == k
  }

  predicate Word(input: string, ts: seq<Token>, i: nat, k: TokenType, text: string) {
    Is(ts, i, k) && TextAt(input, ts, i) == text
  }

  predicate IndexSpelled(input: string, ts: seq<Token>, i: nat, index: Option<string>) {
    index.Some? ==> Is(ts, i, BracketOpen) && Word(input, ts, i + 1, Integer, index.value) && Is(ts, i + 2, BracketClose)
  }

  predicate PortSpelled(input: string, ts: seq<Token>, i: nat, p: PortText) {
    Word(input, ts, i, Identifier, p.name) && IndexSpelled(input, ts, i + 1, p.index)
  }

  /** The value is a name or a string. */
  predicate PairSpelled(input: string, ts: seq<Token>, i: nat, p: PairText) {
    && Word(input, ts, i, Identifier, p.key)
    && (p.value.Some? ==>
          Is(ts, i + 1, Equal) && (Word(input, ts, i + 2, Identifier, p.value.value) || Word(input, ts, i + 2, String, p.value.value)))
  }

  predicate PairsSpelled(input: string, ts: seq<Token>, i: nat, ps: seq<PairText>, first: bool)
    decreases |ps|
  {
    ps == [] ||
    var k := if first then i else i + 1;
    && (!first ==> Is(ts, i, Comma)) && PairSpelled(input, ts, k, ps[0])
    && PairsSpelled(input, ts, k + PairSize(ps[0]), ps[1..], false)
  }

  predicate NodeSpelled(input: string, ts: seq<Token>, i: nat, n: NodeText) {
    && Word(input, ts, i, Identifier, n.name)
    && match n
       case Bare(_) => true
       case Empty(_) => Is(ts, i + 1, ParenOpen) && Is(ts, i + 2, ParenClose)
       case Full(_, component, pairs) =>
         && Is(ts, i + 1, ParenOpen) && Word(input, ts, i + 2, Identifier, component)
         && (pairs.Some? ==> Is(ts, i + 3, Colon) && PairsSpelled(input, ts, i + 4, pairs.value, true))
         && Is(ts, i + NodeSize(n) - 1, ParenClose)
  }

  predicate LinkSpelled(input: string, ts: seq<Token>, i: nat, l: LinkText) {
    && PortSpelled(input, ts, i, l.source) && Is(ts, i + PortSize(l.source), Arrow)
    && PortSpelled(input, ts, i + PortSize(l.source) + 1, l.target) && NodeSpelled(input, ts, i + TargetSize(l), l.node)
  }

  predicate LinksSpelled(input: string, ts: seq<Token>, i: nat, ls: seq<LinkText>)
    decreases |ls|
  {
    ls == [] || (LinkSpelled(input, ts, i, ls[0]) && LinksSpelled(input, ts, i + LinkSize(ls[0]), ls[1..]))
  }

  predicate IsKeyword(k: TokenType) {
    k == InportKeyword || k == OutportKeyword || k == DeclareKeyword || k == OptionKeyword
  }

  /** After a node on its own comes a separator or the end; after connections a keyword will also do. */
  predicate ChainEnds(ts: seq<Token>, i: nat, linked: bool) {
    Is(ts, i, StmtSeparator) || Is(ts, i, Eof) || (linked && IsKeyword(KindAt(ts, i)))
  }

  /** INPORT or OUTPORT "=node.port:name". */
  predicate ExportSpelled(input: string, ts: seq<Token>, i: nat, keyword: TokenType, node: string, port: PortText, name: string) {
    && Is(ts, i, keyword) && Is(ts, i + 1, Equal) && Word(input, ts, i + 2, Identifier, node) && Is(ts, i + 3, Dot)
    && PortSpelled(input, ts, i + 4, port)
    && Is(ts, i + 4 + PortSize(port), Colon) && Word(input, ts, i + 5 + PortSize(port), Identifier, name)
  }

  predicate StmtSpelled(input: string, ts: seq<Token>, i: nat, s: Stmt) {
    match s
    case Break => Is(ts, i, StmtSeparator)
    case Inport(node, port, name) => ExportSpelled(input, ts, i, InportKeyword, node, port, name)
    case Outport(node, port, name) => ExportSpelled(input, ts, i, OutportKeyword, node, port, name)
    case Declare(name, metatype, contents) =>
      && Is(ts, i, DeclareKeyword) && Is(ts, i + 1, Equal) && Word(input, ts, i + 2, Identifier, name)
      && Is(ts, i + 3, Colon) && Word(input, ts, i + 4, Identifier, metatype)
      && Is(ts, i + 5, Colon) && Word(input, ts, i + 6, Identifier, contents)
    case Expose(node, option, name) =>
      && Is(ts, i, OptionKeyword) && Is(ts, i + 1, Equal) && Word(input, ts, i + 2, Identifier, node)
      && Is(ts, i + 3, Dot) && Word(input, ts, i + 4, Identifier, option)
      && Is(ts, i + 5, Colon) && Word(input, ts, i + 6, Identifier, name)
    case Chain(first, links) =>
      && NodeSpelled(input, ts, i, first) && LinksSpelled(input, ts, i + NodeSize(first), links)
      && ChainEnds(ts, i + NodeSize(first) + LinksSize(links), links != [])
  }

  /** The tokens from the i-th on spell the statements, up to the end of the text. */
  predicate Spelled(input: string, ts: seq<Token>, i: nat, stmts: seq<Stmt>)
    decreases |stmts|
  {
    if stmts == [] then Is(ts, i, Eof)
    else StmtSpelled(input, ts, i, stmts[0]) && Spelled(input, ts, i + StmtSize(stmts[0]), stmts[1..])
  }

  // ---------------------------------------------------------------------------
  // What they say
  // ---------------------------------------------------------------------------

  /** One thing a text says; nodes go by the name they are stored under. */
  datatype Act =
    | Use(name: string, component: string, anonymous: bool)
    | Key(node: string, key: string)
    | Link(source: string, sourcePort: string, sourceIndex: int, target: string, targetPort: string, targetIndex: int)
    | In(node: string, port: string, index: int, name: string)
    | Out(node: string, port: string, index: int, name: string)
    | Declared(name: string, metatype: string, contents: string)
    | Exposed(node: string, option: string, name: string)

  function IndexOf(index: Option<string>): int {
    if index.Some? then PortIndex(index.value) else -1
  }

  function Component(n: NodeText): string {
    if n.Full? then n.component else ""
  }

  function Keys(node: string, ps: seq<PairText>): seq<Act> {
    if ps == [] then [] else [Key(node, ps[0].key)] + Keys(node, ps[1..])
  }

  function Used(stored: string, n: NodeText): Act {
    Use(stored, Component(n), n.name == "_")
  }

  function NodeActs(stored: string, n: NodeText): seq<Act> {
    [Used(stored, n)] + if n.Full? && n.pairs.Some? then Keys(stored, n.pairs.value) else []
  }

  /** The name under which the node at token `i` is stored. */
  function StoredAt(ts: seq<Token>, i: nat, n: NodeText): string {
    StoredName(n.name, PosAt(ts, i))
  }

  function LinkAct(source: string, l: LinkText, target: string): Act {
    Link(source, l.source.name, IndexOf(l.source.index), target, l.target.name, IndexOf(l.target.index))
  }

  function LinkActs(ts: seq<Token>, i: nat, source: string, l: LinkText): seq<Act> {
    var target := StoredAt(ts, i + TargetSize(l), l.node);
    NodeActs(target, l.node) + [LinkAct(source, l, target)]
  }

  /** Each link goes on from the node of the link before. */
  function LinksActs(ts: seq<Token>, i: nat, source: string, ls: seq<LinkText>): seq<Act>
    decreases |ls|
  {
    if ls == [] then []
    else
      LinkActs(ts, i, source, ls[0])
      + LinksActs(ts, i + LinkSize(ls[0]), StoredAt(ts, i + TargetSize(ls[0]), ls[0].node), ls[1..])
  }

  function StmtActs(ts: seq<Token>, i: nat, s: Stmt): seq<Act> {
    match s
    case Break => []
    case Inport(node, port, name) => [Use(node, "", node == "_"), In(node, port.name, IndexOf(port.index), name)]
    case Outport(node, port, name) => [Use(node, "", node == "_"), Out(node, port.name, IndexOf(port.index), name)]
    case Declare(name, metatype, contents) => [Declared(name, metatype, contents)]
    case Expose(node, option, name) => [Use(node, "", node == "_"), Exposed(node, option, name)]
    case Chain(first, links) =>
      var stored := StoredAt(ts, i, first);
      NodeActs(stored, first) + LinksActs(ts, i + NodeSize(first), stored, links)
  }

  function Acts(ts: seq<Token>, i: nat, stmts: seq<Stmt>): seq<Act>
    decreases |stmts|
  {
    if stmts == [] then [] else StmtActs(ts, i, stmts[0]) + Acts(ts, i + StmtSize(stmts[0]), stmts[1..])
  }

  // ---------------------------------------------------------------------------
  // What may be said
  // ---------------------------------------------------------------------------

  /** "_" needs a component; ports of connections, and all names in declarations and options, are not empty. */
  predicate Allowed(a: Act) {
    match a
    case Use(_, component, anonymous) => anonymous ==> component != ""
    case Key(_, _) => true
    case Link(_, sourcePort, _, _, targetPort, _) => sourcePort != "" && targetPort != ""
    case In(_, _, _, _) => true
    case Out(_, _, _, _) => true
    case Declared(name, metatype, contents) => name != "" && metatype != "" && contents != ""
    case Exposed(_, option, name) => option != "" && name != ""
  }

  /** Exports of one port, or one of a whole array and one of a port in it. */
  predicate SamePort(node: string, port: string, index: int, node': string, port': string, index': int) {
    node == node' && port == port' && (index == index' || index == -1 || index' == -1)
  }

  /** What must not be said twice. */
  predicate Clash(a: Act, b: Act) {
    match a
    case Use(name, component, _) => b.Use? && b.name == name && component != "" && b.component != ""
    case Key(_, _) => b == a
    case Link(_, _, _, _, _, _) => b == a
    case In(node, port, index, name) => b.In? && (b.name == name || SamePort(node, port, index, b.node, b.port, b.index))
    case Out(node, port, index, name) => b.Out? && (b.name == name || SamePort(node, port, index, b.node, b.port, b.index))
    case Declared(name, _, _) => b.Declared? && b.name == name
    case Exposed(_, _, name) => b.Exposed? && b.name == name
  }

  predicate Fits(before: seq<Act>, a: Act) {
    Allowed(a) && forall b :: b in before ==> !Clash(b, a)
  }

  /** A component is given to the node. */
  predicate Given(acts: seq<Act>, name: string) {
    exists a :: a in acts && a.Use? && a.name == name && a.component != ""
  }

  predicate AllGiven(acts: seq<Act>) {
    forall a :: a in acts && a.Use? ==> Given(acts, a.name)
  }

  /** Everything fits what was said before it, and in the end every node has a component. */
  predicate Legal(acts: seq<Act>) {
    AllGiven(acts) && forall k :: 0 <= k < |acts| ==> Fits(acts[..k], acts[k])
  }
}
